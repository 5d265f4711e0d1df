/** The pipeline end to end, over every legal history: each order is entered at most once,
    redeliveries change nothing, and settlement sees each market's fills in order. */
module Settlement {
  import opened Orders
  import opened Pairing
  import opened Matching
  import Quiescence
  import opened Runs
  import opened MessageIds
  import opened Pipeline
  import opened Streams
  import opened PipelineLaws

  predicate Offers(e: Event) { e.Deliver? || e.Direct? }

  /** Every order offered, delivered or placed directly, once per offer. */
  function Offered(events: seq<Event>): seq<Order> {
    if events == [] then []
    else
      var e := events[|events| - 1];
      Offered(events[..|events| - 1]) + if Offers(e) then [e.order] else []
  }

  function DirectIds(events: seq<Event>): set<string> {
    if events == [] then {}
    else
      var e := events[|events| - 1];
      DirectIds(events[..|events| - 1]) + if e.Direct? then {e.order.txId} else {}
  }

  /** Only the NATS path checks for duplicates: a direct placement is assumed to carry a txId
      no other offer carries. */
  ghost predicate FreshDirects(events: seq<Event>) {
    events == [] ||
    var e, earlier := events[|events| - 1], events[..|events| - 1];
    && FreshDirects(earlier)
    && (e.Direct? ==> !HasTx(Offered(earlier), e.order.txId))
    && (e.Deliver? ==> e.order.txId !in DirectIds(earlier))
  }

  /** Offers are stamped in the order they happen, ids contain no colon, and direct placements
      are fresh. Deliveries may repeat a txId any number of times. */
  ghost predicate WellFed(events: seq<Event>) {
    Stamped(Offered(events)) && FreshDirects(events) && forall o :: o in Offered(events) ==> Named(o)
  }

  ghost predicate InJob(s: System, txId: string) {
    exists key :: key in s.markets && s.markets[key].job.Some? && s.markets[key].job.value.txId == txId
  }

  /** An accepted order's id is in the lookup set, or about to be. */
  ghost predicate SeenInv(s: System, direct: set<string>) {
    && (forall o :: o in s.accepted ==> o.txId in s.seen || InJob(s, o.txId))
    && (forall id :: id in s.seen || InJob(s, id) ==> HasTx(s.accepted, id))
    && (forall key :: key in s.markets && s.markets[key].job.Some? && !s.markets[key].job.value.viaNats ==>
          s.markets[key].job.value.txId in direct)
  }

  ghost predicate AllInv(s: System, offered: seq<Order>, direct: set<string>) {
    && AcceptedInv(s) && FillsInv(s) && StreamInv(s) && JobsAreOwn(s) && SeenInv(s, direct)
    && forall o :: o in s.accepted ==> o in offered
  }

  /** The lookup set is written only when a placement ends, and still no order is entered
      twice: the subscriber is sequential and direct ids are fresh. */
  lemma OfferIsNew(s: System, offered: seq<Order>, direct: set<string>, e: Event)
    requires AllInv(s, offered, direct) && Enabled(s, e) && Offers(e) && Named(e.order)
    requires Stamped(offered + [e.order])
    requires e.Direct? ==> !HasTx(offered, e.order.txId)
    requires e.Deliver? ==> e.order.txId !in direct && e.order.txId !in s.seen
    ensures NewTo(s, e.order)
  {
    hide FitsU64, KeyOf, AcceptedInv, FillsInv, StreamInv, JobsAreOwn;
    assert (offered + [e.order])[|offered|] == e.order;
    forall o | o in s.accepted ensures o.arrival < e.order.arrival && o.txId != e.order.txId {
      var i :| 0 <= i < |offered| && offered[i] == o;
      assert (offered + [e.order])[i] == o;
    }
  }

  lemma BeginKeepsSeen(s: System, direct: set<string>, order: Order, now: Seconds, viaNats: bool)
    requires SeenInv(s, direct) && KeyOf(order.marketId) in s.markets && Idle(s, KeyOf(order.marketId))
    ensures SeenInv(Begin(s, order, now, viaNats), direct + if viaNats then {} else {order.txId})
  {
    hide FitsU64, KeyOf, AddTo;
    var s' := Begin(s, order, now, viaNats);
    var key := KeyOf(order.marketId);
    assert s'.markets[key].job.value.txId == order.txId && order in s'.accepted;
    forall id | InJob(s, id) ensures InJob(s', id) {
      var k :| k in s.markets && s.markets[k].job.Some? && s.markets[k].job.value.txId == id;
      assert k != key && s'.markets[k] == s.markets[k];
    }
    forall id | id in s'.seen || InJob(s', id) ensures HasTx(s'.accepted, id) {
      if id in s.seen || InJob(s, id) {
        MoreTx(s.accepted, order, id);
      }
    }
  }

  lemma OtherStepsKeepSeen(s: System, direct: set<string>, e: Event)
    requires SeenInv(s, direct) && Enabled(s, e) && !Offers(e)
    ensures SeenInv(Step(s, e), direct)
  {
    hide FitsU64, KeyOf, RemoveFrom, Store, HasTx;
    var s' := Step(s, e);
    assert s'.accepted == s.accepted;
    forall id | InJob(s, id) ensures id in s'.seen || InJob(s', id) {
      var k :| k in s.markets && s.markets[k].job.Some? && s.markets[k].job.value.txId == id;
      assert k in s'.markets;
    }
    forall id | InJob(s', id) ensures InJob(s, id) {
      var k :| k in s'.markets && s'.markets[k].job.Some? && s'.markets[k].job.value.txId == id;
      assert k in s.markets;
    }
  }

  lemma StepKeepsAll(s: System, offered: seq<Order>, direct: set<string>, e: Event)
    requires AllInv(s, offered, direct) && Enabled(s, e)
    requires Offers(e) ==> Named(e.order) && Stamped(offered + [e.order])
    requires e.Direct? ==> !HasTx(offered, e.order.txId)
    requires e.Deliver? ==> e.order.txId !in direct
    ensures AllInv(Step(s, e), offered + (if Offers(e) then [e.order] else []),
                   direct + if e.Direct? then {e.order.txId} else {})
  {
    hide FitsU64, KeyOf, AcceptedInv, FillsInv, StreamInv, JobsAreOwn, AddTo, NewTo, HasTx, Named;
    if Offers(e) {
      if KeyOf(e.order.marketId) in s.markets && (e.Deliver? ==> e.order.txId !in s.seen) {
        OfferIsNew(s, offered, direct, e);
        BeginKeepsAccepted(s, e.order, e.now, e.Deliver?);
        BeginKeepsFills(s, e.order, e.now, e.Deliver?);
        BeginKeepsStream(s, e.order, e.now, e.Deliver?);
        BeginKeepsSeen(s, direct, e.order, e.now, e.Deliver?);
      }
    } else {
      OtherStepsKeepAccepted(s, e);
      OtherStepsKeepFills(s, e);
      OtherStepsKeepSeen(s, direct, e);
      if e.Attempted? {
        AttemptKeepsStream(s, e.key, e.result);
        AttemptKeepsJobs(s, e.key, e.result);
      } else {
        OtherStepsKeepStream(s, e);
      }
    }
  }

  lemma StartInv()
    ensures AllInv(START, [], {})
  {
  }

  lemma WellFedPrefix(events: seq<Event>)
    requires WellFed(events) && events != []
    ensures WellFed(events[..|events| - 1])
  {
    hide FitsU64, Named;
    var before := Offered(events[..|events| - 1]);
    assert forall i :: 0 <= i < |before| ==> before[i] == Offered(events)[i];
  }

  lemma {:induction false} HistoryInv(events: seq<Event>)
    requires WellFed(events) && Legal(events)
    ensures AllInv(StateAfter(events), Offered(events), DirectIds(events))
  {
    hide FitsU64, AllInv, Step, Enabled, Named;
    if events == [] {
      StartInv();
    } else {
      var earlier, e := events[..|events| - 1], events[|events| - 1];
      WellFedPrefix(events);
      HistoryInv(earlier);
      if Offers(e) { assert e.order in Offered(events); }
      StepKeepsAll(StateAfter(earlier), Offered(earlier), DirectIds(earlier), e);
    }
  }

  // ----- exactly once

  /** The open markets, read off the history alone. */
  function OpenKeys(events: seq<Event>): set<string> {
    if events == [] then {}
    else
      var keys, e := OpenKeys(events[..|events| - 1]), events[|events| - 1];
      match e
      case Open(key) => keys + {key}
      case Close(key) => keys - {key}
      case _ => keys
  }

  /** The orders that should enter a book: of each txId, the first offer made while its market
      is open. */
  ghost function FirstPlacings(events: seq<Event>): seq<Order>
    decreases |events|, 0
  {
    if events == [] then []
    else
      var earlier, e := events[..|events| - 1], events[|events| - 1];
      FirstPlacings(earlier) + if Offers(e) && IsFirst(earlier, e) then [e.order] else []
  }

  ghost predicate IsFirst(earlier: seq<Event>, e: Event)
    requires Offers(e)
    decreases |earlier|, 1
  {
    KeyOf(e.order.marketId) in OpenKeys(earlier) && !HasTx(FirstPlacings(earlier), e.order.txId)
  }

  /** The history with every other offer left out. */
  ghost function OnlyFirst(events: seq<Event>): seq<Event> {
    if events == [] then []
    else
      var earlier, e := events[..|events| - 1], events[|events| - 1];
      OnlyFirst(earlier) + if Offers(e) && !IsFirst(earlier, e) then [] else [e]
  }

  lemma {:induction false} KeysAreOpen(events: seq<Event>)
    ensures StateAfter(events).markets.Keys == OpenKeys(events)
  {
    hide FitsU64, KeyOf, AddTo, Store, RemoveFrom;
    if events != [] { KeysAreOpen(events[..|events| - 1]); }
  }

  /** An offer changes the state exactly when it is the first placing of its txId. */
  lemma OfferTakesEffect(s: System, offered: seq<Order>, direct: set<string>, e: Event)
    requires AllInv(s, offered, direct) && Enabled(s, e) && Offers(e)
    requires e.Direct? ==> !HasTx(offered, e.order.txId)
    requires e.Deliver? ==> e.order.txId !in direct
    ensures Step(s, e) ==
            if KeyOf(e.order.marketId) in s.markets && !HasTx(s.accepted, e.order.txId)
            then Begin(s, e.order, e.now, e.Deliver?) else s
  {
    hide FitsU64, KeyOf, AcceptedInv, FillsInv, StreamInv, JobsAreOwn, Begin;
    if HasTx(s.accepted, e.order.txId) {
      var o :| o in s.accepted && o.txId == e.order.txId;
      assert o in offered;
    }
  }

  lemma {:induction false} AcceptedAreFirst(events: seq<Event>)
    requires WellFed(events) && Legal(events)
    ensures StateAfter(events).accepted == FirstPlacings(events)
  {
    hide FitsU64, AllInv, Enabled, Named, KeyOf, AddTo, Store, RemoveFrom, HasTx;
    if events != [] {
      var earlier, e := events[..|events| - 1], events[|events| - 1];
      WellFedPrefix(events);
      AcceptedAreFirst(earlier);
      HistoryInv(earlier);
      KeysAreOpen(earlier);
      if Offers(e) {
        OfferTakesEffect(StateAfter(earlier), Offered(earlier), DirectIds(earlier), e);
      } else {
        assert Step(StateAfter(earlier), e).accepted == StateAfter(earlier).accepted;
      }
    }
  }

  /** Exactly once: redeliveries, and offers to a market that is not open, can be left out of
      the history without changing any book, fill or published message; what is left is a
      history that can happen, and offers each txId once. */
  lemma {:induction false} ExactlyOnce(events: seq<Event>)
    requires WellFed(events) && Legal(events)
    ensures StateAfter(OnlyFirst(events)) == StateAfter(events) && Legal(OnlyFirst(events))
    ensures Offered(OnlyFirst(events)) == FirstPlacings(events) == StateAfter(events).accepted
    ensures DistinctTxIds(FirstPlacings(events))
  {
    hide FitsU64, AllInv, Enabled, Named, KeyOf, HasTx, Step;
    HistoryInv(events);
    AcceptedAreFirst(events);
    AcceptedDistinct(StateAfter(events), Offered(events), DirectIds(events));
    if events != [] {
      var earlier, e := events[..|events| - 1], events[|events| - 1];
      WellFedPrefix(events);
      ExactlyOnce(earlier);
      HistoryInv(earlier);
      KeysAreOpen(earlier);
      assert (OnlyFirst(earlier) + [e])[..|OnlyFirst(earlier)|] == OnlyFirst(earlier);
      if Offers(e) {
        OfferTakesEffect(StateAfter(earlier), Offered(earlier), DirectIds(earlier), e);
        if !IsFirst(earlier, e) { assert OnlyFirst(events) == OnlyFirst(earlier); }
      }
    }
  }

  lemma AcceptedDistinct(s: System, offered: seq<Order>, direct: set<string>)
    requires AllInv(s, offered, direct)
    ensures DistinctTxIds(s.accepted)
  {
  }

  // ----- the settlement stream

  /** For every pattern of failed publishes and lost acknowledgements: what settlement sees of a
      market repeats no message ID and is a subsequence of the market's fills, in order. So
      it is the fills themselves when the stream has each of them. */
  lemma StreamIsTheFillLog(events: seq<Event>, key: string)
    requires WellFed(events) && Legal(events)
    ensures var s := StateAfter(events);
            && DistinctIds(s.stream)
            && Sub(OfMarket(s.stream, key), OfMarket(s.fills, key))
            && ((forall m :: m in OfMarket(s.fills, key) ==> m in s.stream) ==>
                  OfMarket(s.stream, key) == OfMarket(s.fills, key))
  {
    hide FitsU64, KeyOf, AcceptedInv, JobsAreOwn, SeenInv, MessageId, StateAfter, OfMarket, DistinctIds, Sub;
    HistoryInv(events);
    var s := StateAfter(events);
    assert MarketStream(s, key) && DistinctIds(s.fills);
    var mine, part := OfMarket(s.fills, key), OfMarket(s.stream, key);
    SubPrefix(part, mine, |mine| - |Pending(s, key)| + if Pending(s, key) == [] then 0 else 1);
    if forall m :: m in mine ==> m in s.stream {
      OfMarketMembers(s.fills, key);
      OfMarketMembers(s.stream, key);
      OfMarketDistinct(s.fills, key);
      SubWithAll(part, mine);
    }
  }

  lemma {:induction false} SubPrefix(a: seq<Match>, b: seq<Match>, n: nat)
    requires n <= |b| && Sub(a, b[..n])
    ensures Sub(a, b)
    decreases |b| - n
  {
    hide Sub, FitsU64;
    if n == |b| {
      assert b[..n] == b;
    } else {
      assert b[..n + 1] == b[..n] + [b[n]];
      SubSnoc(a, b[..n], b[n]);
      SubPrefix(a, b, n + 1);
    }
  }

  /** Every open book is a run of the orders accepted for it, so everything proved of runs
      holds of it: here, that no two of its resting orders can trade. */
  lemma OpenBooksAreQuiet(events: seq<Event>, key: string)
    requires WellFed(events) && Legal(events) && key in StateAfter(events).markets
    ensures var mk := StateAfter(events).markets[key];
            && mk.book == Run(mk.ops).book && Stamped(Placed(mk.ops))
            && (forall o :: o in Placed(mk.ops) ==> o in StateAfter(events).accepted)
            && Quiescence.Inv(mk.book)
  {
    hide FitsU64, KeyOf, FillsInv, StreamInv, JobsAreOwn, SeenInv, Run, Placed, Stamped, StateAfter, Legal, Named;
    HistoryInv(events);
    var mk := StateAfter(events).markets[key];
    assert BookInv(mk, key, StateAfter(events).accepted);
    RunAccounted(mk.ops);
  }

}
