/** What every step of the pipeline keeps: books that are runs of accepted orders, each order
    accepted once, fills with distinct message IDs, and a settlement stream that is each
    market's fills in order. */
module PipelineLaws {
  import opened Orders
  import PriceTime
  import opened Pairing
  import opened Matching
  import opened Quiescence
  import opened Ledger
  import opened Runs
  import opened MessageIds
  import opened Pipeline
  import opened Streams

  ghost predicate HasTx(orders: seq<Order>, txId: string) {
    exists o :: o in orders && o.txId == txId
  }

  ghost predicate Named(o: Order) { ColonFree(o.marketId) && ColonFree(o.txId) }

  /** Every open book is a run of accepted orders of its own market. */
  ghost predicate BookInv(mk: Market, key: string, accepted: seq<Order>) {
    && mk.book == Run(mk.ops).book
    && Stamped(Placed(mk.ops)) && DistinctTxIds(Placed(mk.ops))
    && forall o :: o in Placed(mk.ops) ==> o in accepted && KeyOf(o.marketId) == key
  }

  ghost predicate AcceptedInv(s: System) {
    && Stamped(s.accepted) && DistinctTxIds(s.accepted)
    && (forall o :: o in s.accepted ==> Named(o))
    && forall key :: key in s.markets ==> BookInv(s.markets[key], key, s.accepted)
  }

  /** `order` was stamped after, and is named differently from, every accepted order. */
  ghost predicate NewTo(s: System, order: Order) {
    Named(order) && forall o :: o in s.accepted ==> o.arrival < order.arrival && o.txId != order.txId
  }

  // ----- accepted orders and their books

  lemma OneMorePlaced(placed: seq<Order>, order: Order)
    requires Stamped(placed) && DistinctTxIds(placed)
    requires forall o :: o in placed ==> o.arrival < order.arrival && o.txId != order.txId
    ensures Stamped(placed + [order]) && DistinctTxIds(placed + [order])
  {
    hide FitsU64;
  }

  lemma BookAfterAdd(mk: Market, key: string, s: System, order: Order, now: Seconds, job: Option<Job>)
    requires BookInv(mk, key, s.accepted) && NewTo(s, order) && KeyOf(order.marketId) == key
    ensures BookInv(Market(AddTo(mk.book, order, now).book, job, mk.ops + [Add(order, now)]), key, s.accepted + [order])
  {
    hide FitsU64, KeyOf, AddTo, Named;
    OneMoreOp(mk.ops, Add(order, now));
    OneMorePlaced(Placed(mk.ops), order);
  }

  lemma BeginKeepsAccepted(s: System, order: Order, now: Seconds, viaNats: bool)
    requires AcceptedInv(s) && NewTo(s, order) && KeyOf(order.marketId) in s.markets
    ensures AcceptedInv(Begin(s, order, now, viaNats))
  {
    hide FitsU64, KeyOf, AddTo, Named, Run, Placed, Stamped, BookInv;
    var key := KeyOf(order.marketId);
    var s' := Begin(s, order, now, viaNats);
    OneMorePlaced(s.accepted, order);
    BookAfterAdd(s.markets[key], key, s, order, now, s'.markets[key].job);
    forall k | k in s'.markets ensures BookInv(s'.markets[k], k, s'.accepted) {
      if k != key { BookInvGrows(s.markets[k], k, s.accepted, order); }
    }
  }

  lemma BookInvGrows(mk: Market, key: string, accepted: seq<Order>, order: Order)
    requires BookInv(mk, key, accepted)
    ensures BookInv(mk, key, accepted + [order])
  {
    hide FitsU64, KeyOf, Run, Placed, Stamped;
  }

  lemma OtherStepsKeepAccepted(s: System, e: Event)
    requires AcceptedInv(s) && !e.Deliver? && !e.Direct?
    ensures AcceptedInv(Step(s, e)) && Step(s, e).accepted == s.accepted
    ensures Step(s, e).fills == s.fills
  {
    hide FitsU64, KeyOf, Run, Placed, Stamped, Named, RemoveFrom, Store, BookInv;
    var s' := Step(s, e);
    forall k | k in s'.markets ensures BookInv(s'.markets[k], k, s.accepted) {
      if e.Open? && k !in s.markets {
        FreshBook(k, s.accepted);
      } else if e.Cancel? && k == e.key {
        BookAfterCancel(s.markets[k], k, s.accepted, e.txId);
      } else {
        JobIsNoBook(s.markets[k], s'.markets[k], k, s.accepted);
      }
    }
  }

  lemma FreshBook(key: string, accepted: seq<Order>)
    ensures BookInv(Market(EMPTY_BOOK, None, []), key, accepted)
  {
  }

  lemma JobIsNoBook(mk: Market, mk': Market, key: string, accepted: seq<Order>)
    requires BookInv(mk, key, accepted) && mk' == mk.(job := mk'.job)
    ensures BookInv(mk', key, accepted)
  {
  }

  lemma BookAfterCancel(mk: Market, key: string, accepted: seq<Order>, txId: string)
    requires BookInv(mk, key, accepted)
    ensures BookInv(Market(RemoveFrom(mk.book, txId), mk.job, mk.ops + [Remove(txId)]), key, accepted)
  {
    hide FitsU64, KeyOf, RemoveFrom;
    OneMoreOp(mk.ops, Remove(txId));
    assert Placed(mk.ops) + [] == Placed(mk.ops);
  }

  // ----- fills

  /** Fills keep distinct message IDs across all markets, open and closed: a fill whose bid was
      placed in an open book is in that book's own log. */
  ghost predicate FillsInv(s: System) {
    && DistinctIds(s.fills)
    && (forall m :: m in s.fills ==> IdsColonFree(m) && HasTx(s.accepted, m.bid.txId))
    && (forall key, m :: key in s.markets && m in Run(s.markets[key].ops).log ==> m in s.fills)
    && (forall key, m :: key in s.markets && m in s.fills && HasTx(Placed(s.markets[key].ops), m.bid.txId) ==>
          m in Run(s.markets[key].ops).log)
  }

  /** The fills of one more order: they extend the book's log, and carry the order's market id
      and ids of orders placed in this book. */
  lemma NewFills(mk: Market, key: string, s: System, order: Order, now: Seconds)
    requires BookInv(mk, key, s.accepted) && NewTo(s, order) && AcceptedInv(s)
    ensures var more := AddTo(mk.book, order, now).matches;
            var log' := Run(mk.ops + [Add(order, now)]).log;
            && log' == Run(mk.ops).log + more
            && (forall m :: m in more ==> m.marketId == order.marketId && IdsColonFree(m))
            && (forall m :: m in log' ==> HasTx(Placed(mk.ops) + [order], m.bid.txId))
  {
    hide FitsU64, KeyOf, AddTo, TallyOf, Inv, Settleable, ColonFree;
    var ops', log := mk.ops + [Add(order, now)], Run(mk.ops).log;
    OneMoreOp(mk.ops, Add(order, now));
    OneMorePlaced(Placed(mk.ops), order);
    RunAccounted(mk.ops);
    RunAccounted(ops');
    var more := AddTo(mk.book, order, now).matches;
    MarketIdOfFills(mk.ops, order, now);
    assert Run(ops').log == log + more;
    forall m | m in Run(ops').log
      ensures HasTx(Placed(ops'), m.bid.txId) && ColonFree(m.bid.txId) && ColonFree(m.ask.txId)
    {
      var k :| 0 <= k < |Run(ops').log| && Run(ops').log[k] == m;
      var b :| b in Placed(ops') && Advanced(b, m.bid, Run(ops').log[..k]);
      var a :| a in Placed(ops') && Advanced(a, m.ask, Run(ops').log[..k]);
      assert Named(a) && Named(b);
    }
    assert forall m :: m in more ==> m in Run(ops').log;
  }

  lemma MarketIdOfFills(ops: seq<Op>, order: Order, now: Seconds)
    requires Stamped(Placed(ops))
    ensures forall m :: m in AddTo(Run(ops).book, order, now).matches ==> m.marketId == order.marketId
  {
    hide FitsU64, TallyOf, Settleable, Walk, PriceTime.BestFirst, Quiet, Chained;
    RunAccounted(ops);
    var side := Run(ops).book.Side(!IsBid(order));
    MemberOfSorted(!IsBid(order), side);
    WalkSettles(order, PriceTime.BestFirst(!IsBid(order), side), now);
  }

  lemma BeginKeepsFills(s: System, order: Order, now: Seconds, viaNats: bool)
    requires AcceptedInv(s) && FillsInv(s) && NewTo(s, order) && KeyOf(order.marketId) in s.markets
    ensures FillsInv(Begin(s, order, now, viaNats))
  {
    hide FitsU64, KeyOf, AddTo, Named, Run, Stamped, MessageId, IdsColonFree, BookInv, HasTx;
    var key := KeyOf(order.marketId);
    var mk, s' := s.markets[key], Begin(s, order, now, viaNats);
    var more := AddTo(mk.book, order, now).matches;
    var ops' := mk.ops + [Add(order, now)];
    NewFills(mk, key, s, order, now);
    OneMoreOp(mk.ops, Add(order, now));
    BeginKeepsAccepted(s, order, now, viaNats);
    forall m | m in s'.fills ensures IdsColonFree(m) && HasTx(s'.accepted, m.bid.txId) {
      if m in s.fills {
        MoreTx(s.accepted, order, m.bid.txId);
      } else {
        assert m in Run(ops').log;
        PlacedTxAccepted(s'.markets[key], key, s'.accepted, m.bid.txId);
      }
    }
    forall m | m in s.fills && HasTx(Placed(ops'), m.bid.txId) ensures m in Run(mk.ops).log {
      NotYetAccepted(s, order, m.bid.txId, Placed(mk.ops));
    }
    forall k, m | k in s'.markets && m in s'.fills && HasTx(Placed(s'.markets[k].ops), m.bid.txId)
      ensures m in Run(s'.markets[k].ops).log
    {
      if k != key && m in more {
        OneMarketPerTx(s', key, k, m.bid.txId);
      }
    }
    NewIdsDistinct(mk, key, s, order, now);
    assert DistinctIds(s'.fills);
  }

  lemma MoreTx(orders: seq<Order>, order: Order, txId: string)
    requires HasTx(orders, txId)
    ensures HasTx(orders + [order], txId)
  {
    hide FitsU64;
    var o :| o in orders && o.txId == txId;
    assert o in orders + [order];
  }

  lemma PlacedTxAccepted(mk: Market, key: string, accepted: seq<Order>, txId: string)
    requires BookInv(mk, key, accepted) && HasTx(Placed(mk.ops), txId)
    ensures HasTx(accepted, txId)
  {
    hide FitsU64, KeyOf, Run, Stamped;
  }

  lemma NotYetAccepted(s: System, order: Order, txId: string, placed: seq<Order>)
    requires NewTo(s, order) && HasTx(s.accepted, txId) && HasTx(placed + [order], txId)
    ensures HasTx(placed, txId)
  {
    hide FitsU64, Named;
    var o :| o in placed + [order] && o.txId == txId;
    assert o in placed;
  }

  lemma OneMarketPerTx(s: System, key: string, k: string, txId: string)
    requires AcceptedInv(s) && key in s.markets && k in s.markets
    requires HasTx(Placed(s.markets[key].ops), txId) && HasTx(Placed(s.markets[k].ops), txId)
    ensures key == k
  {
    hide FitsU64, KeyOf, Run, Stamped, Placed, Named;
    var a :| a in Placed(s.markets[key].ops) && a.txId == txId;
    var b :| b in Placed(s.markets[k].ops) && b.txId == txId;
    assert BookInv(s.markets[key], key, s.accepted) && BookInv(s.markets[k], k, s.accepted);
    assert a == b;
  }

  /** The market's log once the new order is in: its matches follow, and all their ids are clean. */
  lemma NextLog(mk: Market, key: string, s: System, order: Order, now: Seconds)
    requires AcceptedInv(s) && FillsInv(s) && NewTo(s, order)
    requires key in s.markets && mk == s.markets[key] && KeyOf(order.marketId) == key
    ensures var ops', more := mk.ops + [Add(order, now)], AddTo(mk.book, order, now).matches;
            && Stamped(Placed(ops')) && DistinctTxIds(Placed(ops'))
            && Run(ops').log == Run(mk.ops).log + more
            && forall m :: m in Run(ops').log ==> IdsColonFree(m)
  {
    hide FitsU64, KeyOf, AddTo, Named, Run, MessageId, IdsColonFree, HasTx, Stamped;
    assert BookInv(mk, key, s.accepted);
    NewFills(mk, key, s, order, now);
    OneMoreOp(mk.ops, Add(order, now));
    OneMorePlaced(Placed(mk.ops), order);
    assert forall m :: m in Run(mk.ops).log ==> m in s.fills;
  }

  /** No new fill has the ID of an earlier fill of any market. */
  lemma NewIdsAreNew(mk: Market, key: string, s: System, order: Order, now: Seconds, m: Match, n: Match)
    requires AcceptedInv(s) && FillsInv(s) && NewTo(s, order)
    requires key in s.markets && mk == s.markets[key] && KeyOf(order.marketId) == key
    requires m in s.fills && n in AddTo(mk.book, order, now).matches
    ensures MessageId(m) != MessageId(n)
  {
    hide FitsU64, KeyOf, AddTo, Named, Run, Placed, MessageId, IdsColonFree, HasTx, Stamped, DistinctTxIds, DistinctIds;
    var ops', more := mk.ops + [Add(order, now)], AddTo(mk.book, order, now).matches;
    NextLog(mk, key, s, order, now);
    NewFills(mk, key, s, order, now);
    var log := Run(mk.ops).log;
    assert n in Run(ops').log && IdsColonFree(m);
    if MessageId(m) == MessageId(n) {
      MessageIdInjective(m, n);
      NotYetAccepted(s, order, n.bid.txId, Placed(mk.ops));
      var k :| 0 <= k < |log| && log[k] == m;
      var j :| 0 <= j < |more| && more[j] == n;
      MessageIdsDistinct(ops', k, |log| + j);
    }
  }

  lemma DistinctTogether(a: seq<Match>, b: seq<Match>)
    requires DistinctIds(a) && DistinctIds(b)
    requires forall m, n :: m in a && n in b ==> MessageId(m) != MessageId(n)
    ensures DistinctIds(a + b)
  {
    hide MessageId;
  }

  /** The new fills share no ID with each other or with any earlier fill of any market. */
  lemma NewIdsDistinct(mk: Market, key: string, s: System, order: Order, now: Seconds)
    requires AcceptedInv(s) && FillsInv(s) && NewTo(s, order)
    requires key in s.markets && mk == s.markets[key] && KeyOf(order.marketId) == key
    ensures DistinctIds(s.fills + AddTo(mk.book, order, now).matches)
  {
    hide FitsU64, KeyOf, AddTo, AcceptedInv, NewTo, Run, Placed, Stamped, DistinctTxIds, MessageId, IdsColonFree, HasTx;
    var ops', more := mk.ops + [Add(order, now)], AddTo(mk.book, order, now).matches;
    NextLog(mk, key, s, order, now);
    var log := Run(mk.ops).log;
    forall i, j | 0 <= i < j < |more| ensures MessageId(more[i]) != MessageId(more[j]) {
      MessageIdsDistinct(ops', |log| + i, |log| + j);
    }
    forall m, n | m in s.fills && n in more ensures MessageId(m) != MessageId(n) {
      NewIdsAreNew(mk, key, s, order, now, m, n);
    }
    DistinctTogether(s.fills, more);
  }

  lemma OtherStepsKeepFills(s: System, e: Event)
    requires AcceptedInv(s) && FillsInv(s) && !e.Deliver? && !e.Direct?
    ensures FillsInv(Step(s, e))
  {
    hide FitsU64, KeyOf, Run, Placed, Named, RemoveFrom, Store, BookInv, HasTx, DistinctIds, IdsColonFree;
    OtherStepsKeepAccepted(s, e);
    var s' := Step(s, e);
    forall k | k in s'.markets
      ensures forall m :: m in Run(s'.markets[k].ops).log ==> m in s.fills
      ensures forall m :: m in s.fills && HasTx(Placed(s'.markets[k].ops), m.bid.txId) ==> m in Run(s'.markets[k].ops).log
    {
      if e.Open? && k !in s.markets {
        NothingPlaced();
      } else if e.Cancel? && k == e.key {
        OneMoreOp(s.markets[k].ops, Remove(e.txId));
        assert Placed(s.markets[k].ops) + [] == Placed(s.markets[k].ops);
      }
    }
  }

  lemma NothingPlaced()
    ensures Run([]).log == []
    ensures forall id :: !HasTx(Placed([]), id)
  {
  }

  // ----- the settlement stream

  function Pending(s: System, key: string): seq<Match> {
    if key in s.markets && s.markets[key].job.Some? then s.markets[key].job.value.fills else []
  }

  /** `pending` are the last of one market's fills `mine`, and what the stream stored of that
      market, `part`, is a subsequence of the others and the one being attempted. */
  ghost predicate InStep(mine: seq<Match>, pending: seq<Match>, part: seq<Match>) {
    && |pending| <= |mine|
    && mine[|mine| - |pending|..] == pending
    && Sub(part, mine[..|mine| - |pending| + if pending == [] then 0 else 1])
  }

  lemma CutAt<T>(s: seq<T>, n: nat)
    requires n < |s|
    ensures s[n..][0] == s[n] && s[n..][1..] == s[n + 1..] && s[..n + 1] == s[..n] + [s[n]]
  {
  }

  lemma InStepStored(mine: seq<Match>, pending: seq<Match>, part: seq<Match>)
    requires InStep(mine, pending, part) && pending != [] && pending[0] !in part
    ensures InStep(mine, pending, part + [pending[0]])
  {
    hide FitsU64, Sub;
    var n := |mine| - |pending|;
    CutAt(mine, n);
    SubWithout(part, mine[..n], mine[n]);
    SubSnoc(part, mine[..n], mine[n]);
  }

  lemma InStepNext(mine: seq<Match>, pending: seq<Match>, part: seq<Match>)
    requires InStep(mine, pending, part) && pending != []
    ensures InStep(mine, pending[1..], part)
  {
    hide FitsU64, Sub;
    var n := |mine| - |pending|;
    CutAt(mine, n);
    if |pending| > 1 {
      CutAt(mine, n + 1);
      SubSnoc(part, mine[..n + 1], mine[n + 1]);
    }
  }

  lemma InStepAttempt(mine: seq<Match>, pending: seq<Match>, part: seq<Match>, part': seq<Match>)
    requires InStep(mine, pending, part) && pending != []
    requires part' == part || (pending[0] !in part && part' == part + [pending[0]])
    ensures InStep(mine, pending, part') && InStep(mine, pending[1..], part')
  {
    hide FitsU64, InStep;
    if pending[0] !in part { InStepStored(mine, pending, part); }
    InStepNext(mine, pending, part');
  }

  ghost predicate MarketStream(s: System, key: string) {
    InStep(OfMarket(s.fills, key), Pending(s, key), OfMarket(s.stream, key))
  }

  ghost predicate StreamInv(s: System) {
    && (forall key :: MarketStream(s, key))
    && (forall m :: m in s.stream ==> m in s.fills)
    && DistinctIds(s.stream)
  }

  lemma SameId(s: seq<Match>, m: Match, n: Match)
    requires DistinctIds(s) && m in s && n in s && MessageId(m) == MessageId(n)
    ensures m == n
  {
    hide MessageId, FitsU64;
  }

  /** The stream after one attempt at a fill: it holds the fill if the attempt was stored,
      and at most that fill is new. */
  lemma StoreKeeps(stream: seq<Match>, fills: seq<Match>, m: Match, result: Publish)
    requires DistinctIds(stream) && DistinctIds(fills) && m in fills
    requires forall n :: n in stream ==> n in fills
    ensures var stream' := Store(stream, m, result);
            && DistinctIds(stream')
            && (forall n :: n in stream' ==> n in fills)
            && (!result.NotStored? ==> m in stream')
            && (stream' == stream || (m !in stream && stream' == stream + [m]))
  {
    hide MessageId, FitsU64;
    if !result.NotStored? && HasId(stream, MessageId(m)) {
      var k :| 0 <= k < |stream| && MessageId(stream[k]) == MessageId(m);
      assert stream[k] in stream;
      SameId(fills, m, stream[k]);
    }
  }

  ghost predicate JobsAreOwn(s: System) {
    forall key, m :: key in s.markets && m in Pending(s, key) ==> m in s.fills && KeyOf(m.marketId) == key
  }

  /** Storing one fill changes at most its own market's part of the stream. */
  lemma StoredPart(stream: seq<Match>, m: Match, key: string)
    ensures OfMarket(stream + [m], key) ==
            OfMarket(stream, key) + if KeyOf(m.marketId) == key then [m] else []
    ensures m !in stream ==> m !in OfMarket(stream, key)
  {
    hide KeyOf, FitsU64;
    OfMarketAppend(stream, [m], key);
    OfMarketOnly([m], key);
    OfMarketMembers(stream, key);
  }

  lemma PendingAfterAttempt(s: System, key: string, result: Publish, k: string)
    requires Publishing(s, key)
    ensures Pending(s, key) != []
    ensures var s', pending := Step(s, Attempted(key, result)), Pending(s, key);
            && s'.fills == s.fills && s'.stream == Store(s.stream, pending[0], result)
            && (k != key ==> Pending(s', k) == Pending(s, k))
            && Pending(s', key) in {pending, pending[1..]}
  {
    hide Store, FitsU64;
  }

  lemma AttemptKeepsStream(s: System, key: string, result: Publish)
    requires FillsInv(s) && StreamInv(s) && JobsAreOwn(s) && Publishing(s, key)
    ensures StreamInv(Step(s, Attempted(key, result)))
  {
    hide FitsU64, KeyOf, MessageId, DistinctIds, Store, Run, Placed, InStep, Step, Pending, OfMarket;
    var s' := Step(s, Attempted(key, result));
    PendingAfterAttempt(s, key, result, key);
    var m := Pending(s, key)[0];
    assert m in Pending(s, key);
    StoreKeeps(s.stream, s.fills, m, result);
    forall k ensures MarketStream(s', k) {
      AttemptKeepsMarket(s, key, result, k);
    }
  }

  lemma AttemptKeepsMarket(s: System, key: string, result: Publish, k: string)
    requires FillsInv(s) && StreamInv(s) && JobsAreOwn(s) && Publishing(s, key)
    ensures MarketStream(Step(s, Attempted(key, result)), k)
  {
    hide FitsU64, KeyOf, MessageId, DistinctIds, Store, Run, Placed, InStep, Step, Pending, OfMarket;
    var s' := Step(s, Attempted(key, result));
    PendingAfterAttempt(s, key, result, k);
    var m := Pending(s, key)[0];
    assert m in Pending(s, key) && MarketStream(s, k);
    StoreKeeps(s.stream, s.fills, m, result);
    StoredPart(s.stream, m, k);
    if k == key {
      InStepAttempt(OfMarket(s.fills, k), Pending(s, k), OfMarket(s.stream, k), OfMarket(s'.stream, k));
    } else {
      assert OfMarket(s.stream, k) + [] == OfMarket(s.stream, k);
    }
  }

  lemma InStepBegin(mine: seq<Match>, more: seq<Match>, part: seq<Match>)
    requires InStep(mine, [], part)
    ensures InStep(mine + more, more, part)
  {
    hide FitsU64, Sub;
    assert mine[..|mine|] == mine && (mine + more)[|mine|..] == more;
    if more == [] {
      assert (mine + more)[..|mine|] == mine;
    } else {
      assert (mine + more)[..|mine| + 1] == mine + [more[0]];
      SubSnoc(part, mine, more[0]);
    }
  }

  lemma BeginKeepsStream(s: System, order: Order, now: Seconds, viaNats: bool)
    requires AcceptedInv(s) && FillsInv(s) && StreamInv(s) && JobsAreOwn(s) && NewTo(s, order)
    requires KeyOf(order.marketId) in s.markets && Idle(s, KeyOf(order.marketId))
    ensures StreamInv(Begin(s, order, now, viaNats)) && JobsAreOwn(Begin(s, order, now, viaNats))
  {
    hide FitsU64, KeyOf, MessageId, DistinctIds, AddTo, Run, Placed, InStep, OfMarket, Named, IdsColonFree, HasTx;
    var key := KeyOf(order.marketId);
    var mk, s' := s.markets[key], Begin(s, order, now, viaNats);
    var more := AddTo(mk.book, order, now).matches;
    assert BookInv(mk, key, s.accepted);
    NewFills(mk, key, s, order, now);
    forall k ensures MarketStream(s', k) {
      assert MarketStream(s, k);
      OfMarketAppend(s.fills, more, k);
      OfMarketOnly(more, k);
      if k == key {
        InStepBegin(OfMarket(s.fills, k), more, OfMarket(s.stream, k));
      } else {
        assert OfMarket(s.fills, k) + [] == OfMarket(s.fills, k);
      }
    }
  }

  lemma OtherStepsKeepStream(s: System, e: Event)
    requires StreamInv(s) && JobsAreOwn(s) && Enabled(s, e)
    requires e.Finish? || e.Cancel? || e.Open? || e.Close?
    ensures StreamInv(Step(s, e)) && JobsAreOwn(Step(s, e))
  {
    hide FitsU64, KeyOf, DistinctIds, RemoveFrom, InStep, OfMarket;
    forall k ensures Pending(Step(s, e), k) == Pending(s, k) && MarketStream(Step(s, e), k) {
      assert MarketStream(s, k);
    }
  }

  lemma AttemptKeepsJobs(s: System, key: string, result: Publish)
    requires JobsAreOwn(s) && Publishing(s, key)
    ensures JobsAreOwn(Step(s, Attempted(key, result)))
  {
    hide FitsU64, KeyOf, Store, Step, Pending;
    forall k, m | k in Step(s, Attempted(key, result)).markets && m in Pending(Step(s, Attempted(key, result)), k)
      ensures m in s.fills && KeyOf(m.marketId) == k
    {
      PendingAfterAttempt(s, key, result, k);
      SameMarkets(s, key, result);
      assert m in Pending(s, k);
    }
    PendingAfterAttempt(s, key, result, key);
  }

  lemma SameMarkets(s: System, key: string, result: Publish)
    requires Publishing(s, key)
    ensures Step(s, Attempted(key, result)).markets.Keys == s.markets.Keys
  {
    hide FitsU64, Store;
  }
}
