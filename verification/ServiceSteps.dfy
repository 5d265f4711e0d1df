/** Every service call is an uninterrupted stretch of pipeline steps - a placement is begin,
    every publish attempt of every fill, finish - so what is proved of legal histories holds of
    every sequence of calls. */
module ServiceSteps {
  import opened Orders
  import opened Pairing
  import opened Matching
  import opened MessageIds
  import opened Runs
  import opened Pipeline
  import opened PipelineLaws
  import opened Streams
  import opened Settlement
  import opened Service
  import Quiescence

  function CoreOf(s: System): Core {
    Core(map k | k in s.markets :: s.markets[k].book, s.seen, s.stream)
  }

  function Steps(s: System, events: seq<Event>): System
    decreases |events|
  {
    if events == [] then s else Steps(Step(s, events[0]), events[1..])
  }

  ghost predicate AllEnabled(s: System, events: seq<Event>)
    decreases |events|
  {
    events == [] || (Enabled(s, events[0]) && AllEnabled(Step(s, events[0]), events[1..]))
  }

  lemma {:induction false} StepsAppend(s: System, a: seq<Event>, b: seq<Event>)
    requires AllEnabled(s, a) && AllEnabled(Steps(s, a), b)
    ensures Steps(s, a + b) == Steps(Steps(s, a), b) && AllEnabled(s, a + b)
    decreases |a|
  {
    hide Step, Enabled;
    if a == [] {
      assert a + b == b;
    } else {
      assert (a + b)[1..] == a[1..] + b && (a + b)[0] == a[0];
      StepsAppend(Step(s, a[0]), a[1..], b);
    }
  }

  /** The attempts at one fill, from the `j`-th on. */
  function AttemptEvents(key: string, net: Network, i: nat, j: nat): seq<Event>
    requires j < MAX_ATTEMPTS
    decreases MAX_ATTEMPTS - j
  {
    [Attempted(key, net(i, j))]
      + if net(i, j).Acked? || j + 1 == MAX_ATTEMPTS then [] else AttemptEvents(key, net, i, j + 1)
  }

  function PublishEvents(key: string, fills: seq<Match>, net: Network, i: nat): seq<Event>
    requires i <= |fills|
    decreases |fills| - i
  {
    if i == |fills| then [] else AttemptEvents(key, net, i, 0) + PublishEvents(key, fills, net, i + 1)
  }

  /** The market's job is at `fills[i..]`, `tries` attempts into the first of them. */
  ghost predicate At(s: System, key: string, txId: string, fills: seq<Match>, i: nat, tries: nat) {
    && i <= |fills| && key in s.markets && s.markets[key].job.Some?
    && s.markets[key].job.value.txId == txId
    && s.markets[key].job.value.fills == fills[i..]
    && s.markets[key].job.value.tries == tries
  }

  /** Everything but the stream and this market's job. */
  ghost predicate SameBooks(s: System, t: System) {
    CoreOf(s).books == CoreOf(t).books && s.seen == t.seen
  }

  lemma OneAttempt(s: System, key: string, txId: string, fills: seq<Match>, i: nat, j: nat, result: Publish)
    requires At(s, key, txId, fills, i, j) && i < |fills| && j < MAX_ATTEMPTS
    ensures Enabled(s, Attempted(key, result))
    ensures var t := Step(s, Attempted(key, result));
            && SameBooks(s, t) && t.stream == Store(s.stream, fills[i], result)
            && if result.Acked? || j + 1 == MAX_ATTEMPTS then At(t, key, txId, fills, i + 1, 0)
               else At(t, key, txId, fills, i, j + 1)
  {
    hide Store;
    assert fills[i..][0] == fills[i] && fills[i..][1..] == fills[i + 1..];
  }

  lemma {:induction false} AttemptsAreRetry(s: System, key: string, txId: string, fills: seq<Match>, net: Network, i: nat, j: nat)
    requires At(s, key, txId, fills, i, j) && i < |fills| && j < MAX_ATTEMPTS
    ensures var events := AttemptEvents(key, net, i, j);
            var t := Steps(s, events);
            && AllEnabled(s, events) && SameBooks(s, t)
            && t.stream == Retry(s.stream, fills[i], net, i, j).stream
            && At(t, key, txId, fills, i + 1, 0)
    decreases MAX_ATTEMPTS - j
  {
    hide Store, Step, Enabled;
    var e := Attempted(key, net(i, j));
    OneAttempt(s, key, txId, fills, i, j, net(i, j));
    if net(i, j).Acked? || j + 1 == MAX_ATTEMPTS {
      assert AttemptEvents(key, net, i, j) == [e];
    } else {
      AttemptsAreRetry(Step(s, e), key, txId, fills, net, i, j + 1);
      assert AttemptEvents(key, net, i, j)[1..] == AttemptEvents(key, net, i, j + 1);
    }
  }

  lemma {:induction false} PublishingIsSteps(s: System, key: string, txId: string, fills: seq<Match>, net: Network, i: nat)
    requires At(s, key, txId, fills, i, 0)
    ensures var events := PublishEvents(key, fills, net, i);
            var t := Steps(s, events);
            && AllEnabled(s, events) && SameBooks(s, t)
            && t.stream == PublishAll(s.stream, fills, net, i)
            && At(t, key, txId, fills, |fills|, 0)
    decreases |fills| - i
  {
    hide Store, Step, Enabled, AttemptEvents;
    if i < |fills| {
      AttemptsAreRetry(s, key, txId, fills, net, i, 0);
      var t := Steps(s, AttemptEvents(key, net, i, 0));
      PublishingIsSteps(t, key, txId, fills, net, i + 1);
      StepsAppend(s, AttemptEvents(key, net, i, 0), PublishEvents(key, fills, net, i + 1));
    }
  }

  /** The steps of one placement that finds its market. */
  function PlacementEvents(s: System, e: Event, net: Network): seq<Event>
    requires e.Deliver? || e.Direct?
    requires KeyOf(e.order.marketId) in s.markets
  {
    var key := KeyOf(e.order.marketId);
    var fills := AddTo(s.markets[key].book, e.order, e.now).matches;
    [e] + PublishEvents(key, fills, net, 0) + [Finish(key)]
  }

  /** What PlaceOrder does to the books, the lookup set and the stream is what these steps do,
      each of them enabled when it is taken. */
  lemma PlacementIsSteps(s: System, e: Event, net: Network)
    requires (e.Deliver? || e.Direct?) && KeyOf(e.order.marketId) in s.markets
    requires Enabled(s, e) && (e.Deliver? ==> e.order.txId !in s.seen)
    ensures var events := PlacementEvents(s, e, net);
            && AllEnabled(s, events)
            && CoreOf(Steps(s, events)) == PlacedIn(CoreOf(s), e.order, e.now, net)
            && Idle(Steps(s, events), KeyOf(e.order.marketId))
  {
    hide AddTo, Store, KeyOf, PublishEvents;
    var key := KeyOf(e.order.marketId);
    var fills := AddTo(s.markets[key].book, e.order, e.now).matches;
    var begun := Step(s, e);
    assert Steps(s, [e]) == begun;
    assert fills[0..] == fills;
    PublishingIsSteps(begun, key, e.order.txId, fills, net, 0);
    var published := Steps(begun, PublishEvents(key, fills, net, 0));
    StepsAppend(s, [e], PublishEvents(key, fills, net, 0));
    FinishEnds(published, key, e.order.txId, fills);
    StepsAppend(s, [e] + PublishEvents(key, fills, net, 0), [Finish(key)]);
    BeginBooks(s, e.order, e.now, e.Deliver?);
  }

  lemma BeginBooks(s: System, order: Order, now: Seconds, viaNats: bool)
    requires KeyOf(order.marketId) in s.markets
    ensures var key := KeyOf(order.marketId);
            CoreOf(Begin(s, order, now, viaNats)).books ==
            CoreOf(s).books[key := AddTo(s.markets[key].book, order, now).book]
  {
    hide AddTo, KeyOf;
  }

  lemma FinishEnds(s: System, key: string, txId: string, fills: seq<Match>)
    requires At(s, key, txId, fills, |fills|, 0)
    ensures AllEnabled(s, [Finish(key)])
    ensures var t := Steps(s, [Finish(key)]);
            CoreOf(t).books == CoreOf(s).books && t.stream == s.stream && t.seen == s.seen + {txId} && Idle(t, key)
  {
    assert [Finish(key)][1..] == [] && fills[|fills|..] == [];
    assert CoreOf(Step(s, Finish(key))).books == CoreOf(s).books;
  }

  // ----- every call, and sequences of calls

  /** The steps of one call, from a state with no placement in progress. */
  function CallEvents(s: System, call: Call): seq<Event> {
    match call
    case AddMarketCall(id) => [Open(KeyOf(id))]
    case CloseMarketCall(id) => [Close(KeyOf(id))]
    case CancelOrderCall(id, txId) => [Cancel(KeyOf(id), txId)]
    case PlaceOrderCall(order, now, net) =>
      if KeyOf(order.marketId) in s.markets then PlacementEvents(s, Direct(order, now), net) else [Direct(order, now)]
    case DeliveryCall(order, now, net) =>
      if order.txId !in s.seen && KeyOf(order.marketId) in s.markets
      then PlacementEvents(s, Deliver(order, now), net) else [Deliver(order, now)]
  }

  lemma OneStep(s: System, e: Event)
    requires Enabled(s, e)
    ensures AllEnabled(s, [e]) && Steps(s, [e]) == Step(s, e)
  {
    hide Enabled, Step;
    assert [e][1..] == [];
  }

  /** Each call does what its steps do, and leaves no placement in progress. */
  lemma CallIsSteps(s: System, call: Call)
    requires AllIdle(s)
    ensures var events := CallEvents(s, call);
            var t := Steps(s, events);
            AllEnabled(s, events) && CoreOf(t) == Effect(CoreOf(s), call) && AllIdle(t)
  {
    hide AddTo, RemoveFrom, KeyOf, PlacementEvents, PlacedIn;
    match call
    case AddMarketCall(id) => MarketCallIsStep(s, call);
    case CloseMarketCall(id) => MarketCallIsStep(s, call);
    case CancelOrderCall(id, txId) => MarketCallIsStep(s, call);
    case PlaceOrderCall(order, now, net) =>
      if KeyOf(order.marketId) in s.markets {
        PlacementIsSteps(s, Direct(order, now), net);
        PlacementLeavesIdle(s, Direct(order, now), net);
      } else {
        MissingMarket(s, order, now, net);
        OneStep(s, Direct(order, now));
      }
    case DeliveryCall(order, now, net) =>
      if order.txId !in s.seen && KeyOf(order.marketId) in s.markets {
        PlacementIsSteps(s, Deliver(order, now), net);
        PlacementLeavesIdle(s, Deliver(order, now), net);
      } else {
        if KeyOf(order.marketId) !in s.markets { MissingMarket(s, order, now, net); }
        OneStep(s, Deliver(order, now));
      }
  }

  lemma MissingMarket(s: System, order: Order, now: Seconds, net: Network)
    requires KeyOf(order.marketId) !in s.markets
    ensures PlacedIn(CoreOf(s), order, now, net) == CoreOf(s)
  {
  }

  lemma MarketCallIsStep(s: System, call: Call)
    requires AllIdle(s) && !call.PlaceOrderCall? && !call.DeliveryCall?
    ensures var events := CallEvents(s, call);
            var t := Steps(s, events);
            AllEnabled(s, events) && CoreOf(t) == Effect(CoreOf(s), call) && AllIdle(t)
  {
    hide RemoveFrom, KeyOf;
    var e := CallEvents(s, call)[0];
    OneStep(s, e);
    assert CoreOf(Step(s, e)).books == Effect(CoreOf(s), call).books;
  }

  /** A placement's steps change no other market's job. */
  lemma {:induction false} OthersIdle(s: System, events: seq<Event>, key: string)
    requires forall e :: e in events ==> (e.Attempted? || e.Finish?) && e.key == key
    requires forall k :: k in s.markets && k != key ==> s.markets[k].job.None?
    ensures forall k :: k in Steps(s, events).markets && k != key ==> Steps(s, events).markets[k].job.None?
    decreases |events|
  {
    hide Step;
    if events != [] {
      OthersIdleStep(s, events[0], key);
      OthersIdle(Step(s, events[0]), events[1..], key);
    }
  }

  lemma OthersIdleStep(s: System, e: Event, key: string)
    requires (e.Attempted? || e.Finish?) && e.key == key
    requires forall k :: k in s.markets && k != key ==> s.markets[k].job.None?
    ensures forall k :: k in Step(s, e).markets && k != key ==> Step(s, e).markets[k].job.None?
  {
    hide Store;
  }

  lemma {:induction false} AttemptsAreOfKey(key: string, net: Network, i: nat, j: nat)
    requires j < MAX_ATTEMPTS
    ensures forall e :: e in AttemptEvents(key, net, i, j) ==> e.Attempted? && e.key == key
    decreases MAX_ATTEMPTS - j
  {
    if !net(i, j).Acked? && j + 1 < MAX_ATTEMPTS { AttemptsAreOfKey(key, net, i, j + 1); }
  }

  lemma {:induction false} PublishesAreOfKey(key: string, fills: seq<Match>, net: Network, i: nat)
    requires i <= |fills|
    ensures forall e :: e in PublishEvents(key, fills, net, i) ==> e.Attempted? && e.key == key
    decreases |fills| - i
  {
    hide AttemptEvents;
    if i < |fills| {
      AttemptsAreOfKey(key, net, i, 0);
      PublishesAreOfKey(key, fills, net, i + 1);
    }
  }

  lemma PlacementLeavesIdle(s: System, e: Event, net: Network)
    requires (e.Deliver? || e.Direct?) && KeyOf(e.order.marketId) in s.markets
    requires AllIdle(s) && (e.Deliver? ==> e.order.txId !in s.seen)
    ensures AllIdle(Steps(s, PlacementEvents(s, e, net)))
  {
    hide AddTo, KeyOf, PublishEvents;
    var key := KeyOf(e.order.marketId);
    var fills := AddTo(s.markets[key].book, e.order, e.now).matches;
    var events := PlacementEvents(s, e, net);
    PlacementIsSteps(s, e, net);
    PublishesAreOfKey(key, fills, net, 0);
    assert events[0] == e && events[1..] == PublishEvents(key, fills, net, 0) + [Finish(key)];
    OthersIdle(Step(s, e), events[1..], key);
    assert Steps(s, events) == Steps(Step(s, e), events[1..]);
  }

  /** Stretches of steps and histories are the same runs. */
  lemma {:induction false} StepsExtendHistory(a: seq<Event>, b: seq<Event>)
    requires Legal(a) && AllEnabled(StateAfter(a), b)
    ensures Legal(a + b) && StateAfter(a + b) == Steps(StateAfter(a), b)
    decreases |b|
  {
    hide Enabled, Step;
    if b == [] {
      assert a + b == a;
    } else {
      var c := a + [b[0]];
      assert c[..|c| - 1] == a && c[|c| - 1] == b[0];
      StepsExtendHistory(c, b[1..]);
      assert c + b[1..] == a + b;
    }
  }

  /** The service after a sequence of calls, from an empty service and stream. */
  function Served(calls: seq<Call>): Core {
    if calls == [] then Core(map[], {}, []) else Effect(Served(calls[..|calls| - 1]), calls[|calls| - 1])
  }

  /** The history of those calls, step by step. */
  function HistoryOf(calls: seq<Call>): seq<Event> {
    if calls == [] then []
    else
      var before := HistoryOf(calls[..|calls| - 1]);
      before + CallEvents(StateAfter(before), calls[|calls| - 1])
  }

  predicate OffersOrder(call: Call) { call.PlaceOrderCall? || call.DeliveryCall? }

  function OfferedBy(calls: seq<Call>): seq<Order> {
    if calls == [] then []
    else
      var call := calls[|calls| - 1];
      OfferedBy(calls[..|calls| - 1]) + if OffersOrder(call) then [call.order] else []
  }

  function DirectIdsOf(calls: seq<Call>): set<string> {
    if calls == [] then {}
    else
      var call := calls[|calls| - 1];
      DirectIdsOf(calls[..|calls| - 1]) + if call.PlaceOrderCall? then {call.order.txId} else {}
  }

  ghost predicate FreshPlacings(calls: seq<Call>) {
    calls == [] ||
    var call, earlier := calls[|calls| - 1], calls[..|calls| - 1];
    && FreshPlacings(earlier)
    && (call.PlaceOrderCall? ==> !HasTx(OfferedBy(earlier), call.order.txId))
    && (call.DeliveryCall? ==> call.order.txId !in DirectIdsOf(earlier))
  }

  /** What is assumed of the calls: stamps in call order, ids without colons, and a txId of its
      own for every direct placement. Deliveries may repeat at will. */
  ghost predicate WellCalled(calls: seq<Call>) {
    Stamped(OfferedBy(calls)) && FreshPlacings(calls) && forall o :: o in OfferedBy(calls) ==> Named(o)
  }

  /** Only a call's first step offers an order. */
  lemma {:induction false} StepsOfferNothing(a: seq<Event>, b: seq<Event>)
    requires forall e :: e in b ==> !Offers(e)
    ensures Offered(a + b) == Offered(a) && DirectIds(a + b) == DirectIds(a)
    ensures FreshDirects(a) ==> FreshDirects(a + b)
  {
    hide HasTx;
    if b == [] {
      assert a + b == a;
    } else {
      var n := |b| - 1;
      assert (a + b)[..|a + b| - 1] == a + b[..n];
      assert b[n] in b && forall e :: e in b[..n] ==> e in b;
      StepsOfferNothing(a, b[..n]);
    }
  }

  ghost predicate FreshCall(a: seq<Event>, call: Call) {
    && (call.PlaceOrderCall? ==> !HasTx(Offered(a), call.order.txId))
    && (call.DeliveryCall? ==> call.order.txId !in DirectIds(a))
  }

  lemma RestOffersNothing(s: System, call: Call)
    ensures var events := CallEvents(s, call);
            && |events| > 0 && (forall e :: e in events[1..] ==> !Offers(e))
            && Offers(events[0]) == OffersOrder(call) && (OffersOrder(call) ==> events[0].order == call.order)
            && events[0].Direct? == call.PlaceOrderCall? && events[0].Deliver? == call.DeliveryCall?
  {
    hide AddTo, KeyOf, PublishEvents;
    var events := CallEvents(s, call);
    if OffersOrder(call) && |events| > 1 {
      var key := KeyOf(call.order.marketId);
      var fills := AddTo(s.markets[key].book, call.order, call.now).matches;
      PublishesAreOfKey(key, fills, call.net, 0);
      assert events[1..] == PublishEvents(key, fills, call.net, 0) + [Finish(key)];
    }
  }

  lemma CallOffers(a: seq<Event>, s: System, call: Call)
    ensures var events := CallEvents(s, call);
            && Offered(a + events) == Offered(a) + (if OffersOrder(call) then [call.order] else [])
            && DirectIds(a + events) == DirectIds(a) + (if call.PlaceOrderCall? then {call.order.txId} else {})
    ensures FreshDirects(a) && FreshCall(a, call) ==> FreshDirects(a + CallEvents(s, call))
  {
    hide CallEvents, HasTx;
    RestOffersNothing(s, call);
    var events := CallEvents(s, call);
    var c := a + [events[0]];
    assert c[..|c| - 1] == a && a + events == c + events[1..];
    StepsOfferNothing(c, events[1..]);
  }

  /** Every sequence of calls, with every network, is a legal history of the pipeline. */
  lemma {:induction false} CallsAreAHistory(calls: seq<Call>)
    requires WellCalled(calls)
    ensures var events := HistoryOf(calls);
            && Legal(events) && WellFed(events)
            && CoreOf(StateAfter(events)) == Served(calls) && AllIdle(StateAfter(events))
            && Offered(events) == OfferedBy(calls) && DirectIds(events) == DirectIdsOf(calls)
  {
    hide FitsU64, CallEvents, Effect, Step, Enabled, HasTx, Named;
    if calls == [] {
      assert CoreOf(START) == Core(map[], {}, []);
    } else {
      var n := |calls| - 1;
      var earlier, call := calls[..n], calls[n];
      var offered := OfferedBy(earlier);
      assert forall i :: 0 <= i < |offered| ==> offered[i] == OfferedBy(calls)[i];
      CallsAreAHistory(earlier);
      var before := HistoryOf(earlier);
      CallIsSteps(StateAfter(before), call);
      StepsExtendHistory(before, CallEvents(StateAfter(before), call));
      CallOffers(before, StateAfter(before), call);
    }
  }

  /** So of the service itself, over every sequence of calls and every network: it repeats no
      message ID in the stream; each market's stored messages are a subsequence of the fills
      that market's placements made, in order; every book it holds is a run of orders it was
      offered, of distinct txIds, and no two resting orders of it can trade. */
  lemma ServiceSettles(calls: seq<Call>, key: string)
    requires WellCalled(calls)
    ensures var c, s := Served(calls), StateAfter(HistoryOf(calls));
            && DistinctIds(c.stream)
            && Sub(OfMarket(c.stream, key), OfMarket(s.fills, key))
            && ((forall m :: m in OfMarket(s.fills, key) ==> m in c.stream) ==>
                  OfMarket(c.stream, key) == OfMarket(s.fills, key))
            && s.accepted == FirstPlacings(HistoryOf(calls)) && DistinctTxIds(s.accepted)
            && (key in c.books ==>
                  && key in s.markets && c.books[key] == Run(s.markets[key].ops).book
                  && (forall o :: o in Placed(s.markets[key].ops) ==> o in s.accepted)
                  && Quiescence.Inv(c.books[key]))
  {
    hide FitsU64, StateAfter, HistoryOf, Legal, WellFed, FirstPlacings, Sub, OfMarket, DistinctIds, Run, Placed, Served;
    CallsAreAHistory(calls);
    var events := HistoryOf(calls);
    StreamIsTheFillLog(events, key);
    ExactlyOnce(events);
    if key in StateAfter(events).markets { OpenBooksAreQuiet(events, key); }
  }
}
