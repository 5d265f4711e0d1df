/** What settlement gets, read off the calls and the network alone: over every sequence of calls
    the stream is exactly the fills of which the network stored an attempt, in the order made. */
module Published {
  import opened Orders
  import opened Pairing
  import opened Matching
  import opened Runs
  import opened MessageIds
  import opened Lifecycle
  import opened Pipeline
  import opened Streams
  import opened PipelineLaws
  import opened Settlement
  import opened Service
  import opened ServiceSteps
  import opened Accounts

  /** The fills a call makes: what its order adds to its market's log. */
  function FillsOf(earlier: seq<Call>, call: Call): seq<Match> {
    if !Enters(earlier, call) || !OffersOrder(call) then []
    else
      FillsAdded(AccountOf(earlier, call.order.marketId).ops, call.order, call.now)
  }

  /** Every fill of every market, in the order made. */
  function AllFills(calls: seq<Call>): seq<Match> {
    if calls == [] then []
    else
      var earlier, call := calls[..|calls| - 1], calls[|calls| - 1];
      AllFills(earlier) + FillsOf(earlier, call)
  }

  /** The network stores one of the up to five attempts made at the call's `i`-th fill: an
      attempt is made only while none was acknowledged. */
  ghost predicate Reaches(net: Network, i: nat) {
    exists j: nat :: j < 5 && !net(i, j).NotStored? && forall l: nat :: l < j ==> !net(i, l).Acked?
  }

  ghost function Reaching(fills: seq<Match>, net: Network, i: nat): seq<Match>
    requires i <= |fills|
    decreases |fills| - i
  {
    if i == |fills| then []
    else (if Reaches(net, i) then [fills[i]] else []) + Reaching(fills, net, i + 1)
  }

  /** The fills of which the network stored an attempt. */
  ghost function ReachingFills(calls: seq<Call>): seq<Match> {
    if calls == [] then []
    else
      var earlier, call := calls[..|calls| - 1], calls[|calls| - 1];
      ReachingFills(earlier) + if OffersOrder(call) then Reaching(FillsOf(earlier, call), call.net, 0) else []
  }

  // ----- the fills have ids of their own

  lemma FillsOfAdd(earlier: seq<Call>, call: Call)
    requires OffersOrder(call) && Enters(earlier, call)
    ensures var c := Served(earlier);
            KeyOf(call.order.marketId) in c.books
            && FillsOf(earlier, call) == AddTo(c.books[KeyOf(call.order.marketId)], call.order, call.now).matches
  {
    hide FitsU64, KeyOf, AddTo, Run;
    BooksAreAccounts(earlier, call.order.marketId);
    OneMoreOp(AccountOf(earlier, call.order.marketId).ops, Add(call.order, call.now));
  }

  lemma {:induction false} StepsMakeNoFills(s: System, events: seq<Event>)
    requires forall e :: e in events ==> !Offers(e)
    ensures Steps(s, events).fills == s.fills
    decreases |events|
  {
    hide Step;
    if events != [] {
      StepMakesNoFills(s, events[0]);
      StepsMakeNoFills(Step(s, events[0]), events[1..]);
    }
  }

  lemma StepMakesNoFills(s: System, e: Event)
    requires !Offers(e)
    ensures Step(s, e).fills == s.fills
  {
    hide Store, RemoveFrom, KeyOf;
  }

  /** An offer that finds its market open and is no duplicate is what enters an order. */
  lemma FirstStepFills(earlier: seq<Call>, s: System, call: Call)
    requires CoreOf(s) == Served(earlier)
    ensures Step(s, CallEvents(s, call)[0]).fills == s.fills + FillsOf(earlier, call)
  {
    hide FitsU64, KeyOf, AddTo, RemoveFrom, FillsOf, AccountOf, Entered, PublishEvents;
    assert s.seen == Served(earlier).seen && s.markets.Keys == Served(earlier).books.Keys;
    if OffersOrder(call) {
      var key := KeyOf(call.order.marketId);
      BooksAreAccounts(earlier, call.order.marketId);
      if Enters(earlier, call) {
        FillsOfAdd(earlier, call);
        assert s.markets[key].book == CoreOf(s).books[key];
      } else {
        NoFills(earlier, call);
      }
    } else {
      NoFills(earlier, call);
    }
  }

  lemma NoFills(earlier: seq<Call>, call: Call)
    requires !Enters(earlier, call)
    ensures FillsOf(earlier, call) == []
  {
  }

  lemma {:induction false} FillsAreAllFills(calls: seq<Call>)
    requires WellCalled(calls)
    ensures StateAfter(HistoryOf(calls)).fills == AllFills(calls)
  {
    hide FitsU64, WellCalled, CallEvents, Served, Step, StateAfter, Legal, WellFed, FillsOf, AllEnabled, AllIdle;
    if calls == [] {
      assert StateAfter([]) == START by { NothingYet(); }
    } else {
      var earlier, call := calls[..|calls| - 1], calls[|calls| - 1];
      WellCalledBefore(calls);
      FillsAreAllFills(earlier);
      CallsAreAHistory(earlier);
      var before := HistoryOf(earlier);
      var s := StateAfter(before);
      var events := CallEvents(s, call);
      CallIsSteps(s, call);
      StepsExtendHistory(before, events);
      RestOffersNothing(s, call);
      FirstStepFills(earlier, s, call);
      StepsMakeNoFills(Step(s, events[0]), events[1..]);
    }
  }

  lemma NothingYet()
    ensures StateAfter([]) == START
  {
  }

  lemma FillIdsDiffer(calls: seq<Call>)
    requires WellCalled(calls)
    ensures DistinctIds(AllFills(calls))
  {
    hide FitsU64, WellCalled, StateAfter, HistoryOf, AllFills, Legal, WellFed, AcceptedInv, DistinctIds, StreamInv, SeenInv, JobsAreOwn;
    CallsAreAHistory(calls);
    HistoryInv(HistoryOf(calls));
    FillsAreAllFills(calls);
  }

  // ----- publishing

  /** The attempts at one fill, from the `j`-th on, store it if one of them does. */
  ghost predicate ReachesFrom(net: Network, i: nat, from: nat) {
    exists j: nat :: from <= j < 5 && !net(i, j).NotStored? && forall l: nat :: from <= l < j ==> !net(i, l).Acked?
  }

  lemma ReachesNext(net: Network, i: nat, j: nat)
    requires j < 5
    ensures ReachesFrom(net, i, j) <==>
            !net(i, j).NotStored? || (!net(i, j).Acked? && ReachesFrom(net, i, j + 1))
  {
    if !net(i, j).Acked? && ReachesFrom(net, i, j + 1) {
      var k: nat :| j + 1 <= k < 5 && !net(i, k).NotStored? && forall l: nat :: j + 1 <= l < k ==> !net(i, l).Acked?;
      assert forall l: nat :: j <= l < k ==> !net(i, l).Acked?;
    }
  }

  lemma {:induction false} RetryStores(stream: seq<Match>, m: Match, net: Network, i: nat, j: nat)
    requires j <= 5
    ensures HasId(stream, MessageId(m)) ==> Retry(stream, m, net, i, j).stream == stream
    ensures !HasId(stream, MessageId(m)) ==>
              Retry(stream, m, net, i, j).stream == stream + if ReachesFrom(net, i, j) then [m] else []
    decreases 5 - j
  {
    hide MessageId, ReachesFrom;
    if j < 5 {
      ReachesNext(net, i, j);
      RetryStores(Store(stream, m, net(i, j)), m, net, i, j + 1);
      StoredHasId(stream, m);
    } else {
      NoneReach(net, i);
    }
  }

  lemma NoneReach(net: Network, i: nat)
    ensures !ReachesFrom(net, i, 5)
  {
  }

  lemma StoredHasId(stream: seq<Match>, m: Match)
    ensures HasId(stream + [m], MessageId(m))
  {
    assert (stream + [m])[|stream|] == m;
  }

  ghost predicate NewIds(stream: seq<Match>, fills: seq<Match>) {
    forall m, n :: m in stream && n in fills ==> MessageId(m) != MessageId(n)
  }

  /** Whether or not the first of the fills is stored, the ids of the others stay new. */
  lemma StillNewIds(stream: seq<Match>, fills: seq<Match>, i: nat)
    requires i < |fills| && DistinctIds(fills) && NewIds(stream, fills[i..])
    ensures !HasId(stream, MessageId(fills[i]))
    ensures NewIds(stream, fills[i + 1..]) && NewIds(stream + [fills[i]], fills[i + 1..])
  {
    hide MessageId;
    assert fills[i..] == [fills[i]] + fills[i + 1..] && fills[i] in fills[i..];
    forall n | n in fills[i + 1..] ensures MessageId(n) != MessageId(fills[i]) {
      var k :| 0 <= k < |fills[i + 1..]| && fills[i + 1..][k] == n;
      assert fills[i + 1 + k] == n;
    }
  }

  lemma OnePublished(stream: seq<Match>, fills: seq<Match>, net: Network, i: nat)
    requires i < |fills| && DistinctIds(fills) && NewIds(stream, fills[i..])
    ensures var stream' := Retry(stream, fills[i], net, i, 0).stream;
            && stream' == stream + (if Reaches(net, i) then [fills[i]] else [])
            && NewIds(stream', fills[i + 1..])
  {
    hide MessageId, Retry, Reaches, ReachesFrom, NewIds, DistinctIds, HasId;
    StillNewIds(stream, fills, i);
    RetryStores(stream, fills[i], net, i, 0);
    SameReach(net, i);
    assert stream + [] == stream;
  }

  lemma PublishNext(stream: seq<Match>, fills: seq<Match>, net: Network, i: nat)
    requires i < |fills|
    ensures PublishAll(stream, fills, net, i) == PublishAll(Retry(stream, fills[i], net, i, 0).stream, fills, net, i + 1)
    ensures Reaching(fills, net, i) == (if Reaches(net, i) then [fills[i]] else []) + Reaching(fills, net, i + 1)
  {
    hide Retry, Reaches;
  }

  lemma NothingToPublish(stream: seq<Match>, fills: seq<Match>, net: Network)
    ensures PublishAll(stream, fills, net, |fills|) == stream && Reaching(fills, net, |fills|) == []
  {
  }

  /** Fills with new ids are appended, those that reach the stream, in order. */
  lemma {:induction false} PublishStores(stream: seq<Match>, fills: seq<Match>, net: Network, i: nat)
    requires i <= |fills| && DistinctIds(fills) && NewIds(stream, fills[i..])
    ensures PublishAll(stream, fills, net, i) == stream + Reaching(fills, net, i)
    decreases |fills| - i
  {
    hide MessageId, Retry, Reaches, NewIds, DistinctIds, PublishAll, Reaching;
    if i == |fills| {
      NothingToPublish(stream, fills, net);
    } else {
      OnePublished(stream, fills, net, i);
      PublishNext(stream, fills, net, i);
      PublishStores(Retry(stream, fills[i], net, i, 0).stream, fills, net, i + 1);
    }
  }

  lemma SameReach(net: Network, i: nat)
    ensures ReachesFrom(net, i, 0) == Reaches(net, i)
  {
    if Reaches(net, i) {
      var j: nat :| j < 5 && !net(i, j).NotStored? && forall l: nat :: l < j ==> !net(i, l).Acked?;
      assert 0 <= j < 5 && forall l: nat :: 0 <= l < j ==> !net(i, l).Acked?;
    }
    if ReachesFrom(net, i, 0) {
      var j: nat :| 0 <= j < 5 && !net(i, j).NotStored? && forall l: nat :: 0 <= l < j ==> !net(i, l).Acked?;
      assert forall l: nat :: l < j ==> !net(i, l).Acked?;
    }
  }

  lemma {:induction false} ReachingAreFills(fills: seq<Match>, net: Network, i: nat)
    requires i <= |fills|
    ensures forall m :: m in Reaching(fills, net, i) ==> m in fills
    decreases |fills| - i
  {
    hide Reaches;
    if i < |fills| { ReachingAreFills(fills, net, i + 1); }
  }

  lemma {:induction false} ReachingFillsAreFills(calls: seq<Call>)
    ensures forall m :: m in ReachingFills(calls) ==> m in AllFills(calls)
  {
    hide FitsU64, FillsOf, Reaching;
    if calls != [] {
      var earlier, call := calls[..|calls| - 1], calls[|calls| - 1];
      ReachingFillsAreFills(earlier);
      if OffersOrder(call) { ReachingAreFills(FillsOf(earlier, call), call.net, 0); }
    }
  }

  lemma DistinctParts(a: seq<Match>, b: seq<Match>)
    requires DistinctIds(a + b)
    ensures DistinctIds(b) && forall m, n :: m in a && n in b ==> MessageId(m) != MessageId(n)
  {
    hide MessageId;
    assert forall i :: 0 <= i < |b| ==> (a + b)[|a| + i] == b[i];
    assert forall i :: 0 <= i < |a| ==> (a + b)[i] == a[i];
  }

  /** What one call publishes. */
  lemma CallPublishes(earlier: seq<Call>, call: Call)
    requires DistinctIds(FillsOf(earlier, call))
    requires forall m, n :: m in Served(earlier).stream && n in FillsOf(earlier, call) ==> MessageId(m) != MessageId(n)
    ensures Effect(Served(earlier), call).stream ==
            Served(earlier).stream + if OffersOrder(call) then Reaching(FillsOf(earlier, call), call.net, 0) else []
  {
    hide FitsU64, KeyOf, AddTo, RemoveFrom, FillsOf, AccountOf, Entered, MessageId, DistinctIds;
    if OffersOrder(call) {
      BooksAreAccounts(earlier, call.order.marketId);
      if Enters(earlier, call) {
        FillsOfAdd(earlier, call);
        assert FillsOf(earlier, call)[0..] == FillsOf(earlier, call);
        PublishStores(Served(earlier).stream, FillsOf(earlier, call), call.net, 0);
      } else {
        NoFills(earlier, call);
      }
    }
  }

  /** For every sequence of calls and every network: the stream holds exactly the fills of which
      an attempt was stored, once each, in the order they were made. */
  lemma {:induction false} StreamIsWhatReached(calls: seq<Call>)
    requires WellCalled(calls)
    ensures Served(calls).stream == ReachingFills(calls)
  {
    hide FitsU64, WellCalled, Effect, FillsOf, Reaching, MessageId, DistinctIds;
    if calls != [] {
      var earlier, call := calls[..|calls| - 1], calls[|calls| - 1];
      WellCalledBefore(calls);
      StreamIsWhatReached(earlier);
      FillIdsDiffer(calls);
      DistinctParts(AllFills(earlier), FillsOf(earlier, call));
      ReachingFillsAreFills(earlier);
      CallPublishes(earlier, call);
    }
  }

  // ----- one market's messages

  /** The network stores an attempt at every fill of every call. */
  ghost predicate EveryFillReaches(calls: seq<Call>) {
    forall n, i: nat :: 0 <= n < |calls| && OffersOrder(calls[n]) && i < |FillsOf(calls[..n], calls[n])| ==>
      Reaches(calls[n].net, i)
  }

  lemma {:induction false} AllReaching(fills: seq<Match>, net: Network, i: nat)
    requires i <= |fills| && forall k: nat :: i <= k < |fills| ==> Reaches(net, k)
    ensures Reaching(fills, net, i) == fills[i..]
    decreases |fills| - i
  {
    hide Reaches;
    if i < |fills| { AllReaching(fills, net, i + 1); }
  }

  /** A market's account is its part of all fills. */
  lemma {:induction false} AccountsShareTheFills(calls: seq<Call>, id: string)
    requires WellCalled(calls)
    ensures OfMarket(AllFills(calls), KeyOf(id)) == AccountOf(calls, id).Fills()
  {
    hide FitsU64, KeyOf, SameMarket, Run, WellCalled, FillsOf, Enters;
    if calls == [] {
      assert Run([]).log == [] by { NothingPlaced(); }
    } else {
      var earlier, call := calls[..|calls| - 1], calls[|calls| - 1];
      WellCalledBefore(calls);
      AccountsShareTheFills(earlier, id);
      OfMarketAppend(AllFills(earlier), FillsOf(earlier, call), KeyOf(id));
      CallFillsAccount(calls, id);
    }
  }

  lemma FillsAfterAdd(a: Account, order: Order, now: Seconds)
    ensures a.(ops := a.ops + [Add(order, now)]).Fills() == a.Fills() + FillsAdded(a.ops, order, now)
  {
    hide FitsU64, Run, Apply;
    OneMoreOp(a.ops, Add(order, now));
    LogGrows(Run(a.ops), Add(order, now));
    var log' := Run(a.ops + [Add(order, now)]).log;
    assert a.past + (Run(a.ops).log + log'[|Run(a.ops).log|..]) == a.past + Run(a.ops).log + log'[|Run(a.ops).log|..];
  }

  lemma FillsAfterCancel(a: Account, txId: string)
    ensures a.(ops := a.ops + [Remove(txId)]).Fills() == a.Fills()
  {
    hide FitsU64, Run, RemoveFrom;
    OneMoreOp(a.ops, Remove(txId));
  }

  lemma FillsAfresh(open: bool, past: seq<Match>)
    ensures Account(open, [], past).Fills() == past
  {
  }

  /** The fills of the last call are in its own market's account. */
  lemma CallFillsAccount(calls: seq<Call>, id: string)
    requires WellCalled(calls) && calls != []
    ensures var earlier, call := calls[..|calls| - 1], calls[|calls| - 1];
            AccountOf(calls, id).Fills() == AccountOf(earlier, id).Fills() + OfMarket(FillsOf(earlier, call), KeyOf(id))
  {
    hide FitsU64, KeyOf, SameMarket, Run, WellCalled, Enters, FillsOf, Account.Fills;
    var earlier, call := calls[..|calls| - 1], calls[|calls| - 1];
    var a := AccountOf(earlier, id);
    KeysAgree(MarketOf(call), id);
    FillsAfresh(true, a.Fills());
    FillsAfresh(false, a.Fills());
    if Enters(earlier, call) {
      EntersOffers(earlier, call);
      EnteringFills(calls, id);
    } else {
      NoFills(earlier, call);
      assert a.Fills() + [] == a.Fills();
      if call.CancelOrderCall? { FillsAfterCancel(a, call.txId); }
    }
  }

  lemma EnteringAdds(earlier: seq<Call>, call: Call)
    requires OffersOrder(call) && Enters(earlier, call)
    ensures FillsOf(earlier, call) == FillsAdded(AccountOf(earlier, call.order.marketId).ops, call.order, call.now)
  {
  }

  /** One market has one account, however its id is spelt. */
  lemma {:induction false} SameMarketSameAccount(calls: seq<Call>, id: string, id': string)
    requires SameMarket(id, id')
    ensures AccountOf(calls, id) == AccountOf(calls, id')
  {
    hide FitsU64, KeyOf, SameMarket, Run, Enters;
    if calls != [] {
      SameMarketSameAccount(calls[..|calls| - 1], id, id');
      KeysAgree(id, id');
      KeysAgree(MarketOf(calls[|calls| - 1]), id);
      KeysAgree(MarketOf(calls[|calls| - 1]), id');
    }
  }

  lemma EnteringFills(calls: seq<Call>, id: string)
    requires WellCalled(calls) && calls != [] && OffersOrder(calls[|calls| - 1])
    requires Enters(calls[..|calls| - 1], calls[|calls| - 1])
    ensures var earlier, call := calls[..|calls| - 1], calls[|calls| - 1];
            AccountOf(calls, id).Fills() == AccountOf(earlier, id).Fills() + OfMarket(FillsOf(earlier, call), KeyOf(id))
  {
    hide FitsU64, KeyOf, SameMarket, Run, WellCalled, Enters, FillsOf, Account.Fills;
    var earlier, call := calls[..|calls| - 1], calls[|calls| - 1];
    var a := AccountOf(earlier, id);
    KeysAgree(call.order.marketId, id);
    WellCalledBefore(calls);
    FillsCarryTheirMarket(earlier, call);
    OfMarketOnly(FillsOf(earlier, call), KeyOf(id));
    if SameMarket(call.order.marketId, id) {
      SameMarketSameAccount(earlier, call.order.marketId, id);
      FillsAfterAdd(a, call.order, call.now);
      EnteringAdds(earlier, call);
    }
  }

  lemma FillsCarryTheirMarket(earlier: seq<Call>, call: Call)
    requires WellCalled(earlier) && OffersOrder(call) && Enters(earlier, call)
    ensures forall m :: m in FillsOf(earlier, call) ==> m.marketId == call.order.marketId
  {
    hide FitsU64, KeyOf, SameMarket, Run, WellCalled, AddTo, FillsOf, AccountOf, Entered, Placed, Stamped, AccountInv;
    var a := AccountOf(earlier, call.order.marketId);
    FillsOfAdd(earlier, call);
    BooksAreAccounts(earlier, call.order.marketId);
    AccountsAreWell(earlier, call.order.marketId);
    AccountIsStamped(a, call.order.marketId, earlier);
    MarketIdOfFills(a.ops, call.order, call.now);
  }

  lemma {:induction false} AllFillsReach(calls: seq<Call>)
    requires EveryFillReaches(calls)
    ensures ReachingFills(calls) == AllFills(calls)
  {
    hide FitsU64, FillsOf, Reaching, Reaches;
    if calls != [] {
      var n := |calls| - 1;
      var earlier, call := calls[..n], calls[n];
      forall k, i: nat | 0 <= k < n && OffersOrder(earlier[k]) && i < |FillsOf(earlier[..k], earlier[k])|
        ensures Reaches(earlier[k].net, i)
      {
        assert earlier[..k] == calls[..k] && earlier[k] == calls[k];
      }
      AllFillsReach(earlier);
      if OffersOrder(call) {
        AllReaching(FillsOf(earlier, call), call.net, 0);
        assert FillsOf(earlier, call)[0..] == FillsOf(earlier, call);
      } else {
        NoOffer(earlier, call);
      }
    }
  }

  lemma NoOffer(earlier: seq<Call>, call: Call)
    requires !OffersOrder(call)
    ensures FillsOf(earlier, call) == []
  {
  }

  /** If an attempt at every fill is stored, settlement gets exactly each market's fills, in
      order: those of its book's log, after those it made before it was last closed. */
  lemma EveryFillIsPublished(calls: seq<Call>, id: string)
    requires WellCalled(calls) && EveryFillReaches(calls)
    ensures OfMarket(Served(calls).stream, KeyOf(id)) == AccountOf(calls, id).Fills()
  {
    hide FitsU64, KeyOf, SameMarket, WellCalled, EveryFillReaches, AllFills, ReachingFills, Served, AccountOf;
    StreamIsWhatReached(calls);
    AllFillsReach(calls);
    AccountsShareTheFills(calls, id);
  }

  /** In particular when every first attempt is acknowledged. */
  lemma AcknowledgedReaches(calls: seq<Call>)
    requires forall n, i: nat :: 0 <= n < |calls| && OffersOrder(calls[n]) ==> calls[n].net(i, 0).Acked?
    ensures EveryFillReaches(calls)
  {
    hide FitsU64, FillsOf;
    forall n, i: nat | 0 <= n < |calls| && OffersOrder(calls[n]) && i < |FillsOf(calls[..n], calls[n])|
      ensures Reaches(calls[n].net, i)
    {
      assert 0 < 5 && !calls[n].net(i, 0).NotStored?;
    }
  }
}
