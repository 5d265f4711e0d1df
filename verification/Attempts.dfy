/** What the pipeline's history alone says of each market: what was done to its book, which fills
    were made, and how every attempt to publish a fill ended. */
module Attempts {
  import opened Orders
  import opened Pairing
  import opened Matching
  import opened Runs
  import opened MessageIds
  import opened Pipeline
  import opened Streams
  import opened PipelineLaws
  import opened Settlement

  // ----- the books and the fills, read off the history

  /** What was done to a market's book since it was opened: the first placings made there and the
      cancels, in order. Opening an open market does nothing. */
  ghost function OpsOf(events: seq<Event>, key: string): seq<Op> {
    if events == [] then []
    else
      var earlier, e := events[..|events| - 1], events[|events| - 1];
      var ops := OpsOf(earlier, key);
      match e
      case Open(k) => if k == key && key !in OpenKeys(earlier) then [] else ops
      case Close(k) => if k == key then [] else ops
      case Cancel(k, txId) => if k == key && key in OpenKeys(earlier) then ops + [Remove(txId)] else ops
      case Attempted(_, _) => ops
      case Finish(_) => ops
      case _ => if KeyOf(e.order.marketId) == key && IsFirst(earlier, e) then ops + [Add(e.order, e.now)] else ops
  }

  /** Every fill, in the order made: what each first placing adds to its book's log. */
  ghost function FillsMade(events: seq<Event>): seq<Match> {
    if events == [] then []
    else
      var earlier, e := events[..|events| - 1], events[|events| - 1];
      FillsMade(earlier) +
        if Offers(e) && IsFirst(earlier, e) then FillsAdded(OpsOf(earlier, KeyOf(e.order.marketId)), e.order, e.now) else []
  }

  /** Every open book is the run of what the history did to it, and the fills are those runs'. */
  lemma {:induction false} BooksAreReadOff(events: seq<Event>)
    requires WellFed(events) && Legal(events)
    ensures var s := StateAfter(events);
            && s.markets.Keys == OpenKeys(events)
            && (forall key :: key in s.markets ==>
                  s.markets[key].ops == OpsOf(events, key) && s.markets[key].book == Run(OpsOf(events, key)).book)
            && s.fills == FillsMade(events)
  {
    hide FitsU64, AllInv, Enabled, Named, KeyOf, HasTx, Step, WellFed, FillsAdded, Run, IsFirst;
    HistoryInv(events);
    BooksAreRuns(StateAfter(events), Offered(events), DirectIds(events));
    KeysAreOpen(events);
    if events != [] {
      var earlier, e := events[..|events| - 1], events[|events| - 1];
      WellFedPrefix(events);
      BooksAreReadOff(earlier);
      var s := StateAfter(earlier);
      if Offers(e) {
        OfferIsReadOff(events);
        forall key | key in StateAfter(events).markets ensures StateAfter(events).markets[key].ops == OpsOf(events, key) {
          assert OpsOf(earlier, key) + [] == OpsOf(earlier, key);
        }
      } else {
        OtherIsReadOff(s, e);
      }
    }
  }

  lemma BooksAreRuns(s: System, offered: seq<Order>, direct: set<string>)
    requires AllInv(s, offered, direct)
    ensures forall key :: key in s.markets ==> s.markets[key].book == Run(s.markets[key].ops).book
  {
    hide FitsU64, KeyOf, FillsInv, StreamInv, JobsAreOwn, SeenInv, Run, Placed, Named, Stamped, DistinctTxIds;
    forall key | key in s.markets ensures s.markets[key].book == Run(s.markets[key].ops).book {
      assert BookInv(s.markets[key], key, s.accepted);
    }
  }

  lemma OfferIsReadOff(events: seq<Event>)
    requires WellFed(events) && Legal(events) && events != [] && Offers(events[|events| - 1])
    ensures var earlier, e := events[..|events| - 1], events[|events| - 1];
            var s, s' := StateAfter(earlier), StateAfter(events);
            if IsFirst(earlier, e) then
              var key := KeyOf(e.order.marketId);
              && key in s.markets
              && (forall k :: k in s'.markets <==> k in s.markets)
              && (forall k :: k in s.markets ==>
                    s'.markets[k].ops == s.markets[k].ops + if k == key then [Add(e.order, e.now)] else [])
              && s'.fills == s.fills + FillsAdded(s.markets[key].ops, e.order, e.now)
            else s' == s
  {
    hide FitsU64, AllInv, Enabled, Named, KeyOf, HasTx, WellFed, AddTo, Run, FillsAdded, FirstPlacings, OpenKeys, StateAfter;
    var earlier, e := events[..|events| - 1], events[|events| - 1];
    var s := StateAfter(earlier);
    WellFedPrefix(events);
    HistoryInv(earlier);
    BooksAreRuns(s, Offered(earlier), DirectIds(earlier));
    KeysAreOpen(earlier);
    AcceptedAreFirst(earlier);
    OfferMeets(events);
    OfferTakesEffect(s, Offered(earlier), DirectIds(earlier), e);
    assert StateAfter(events) == Step(s, e) by { LastStep(events); }
    if IsFirst(earlier, e) {
      AddedFills(s.markets[KeyOf(e.order.marketId)].ops, e.order, e.now);
    }
  }

  lemma LastStep(events: seq<Event>)
    requires events != []
    ensures StateAfter(events) == Step(StateAfter(events[..|events| - 1]), events[|events| - 1])
  {
    hide Step;
  }

  lemma OfferMeets(events: seq<Event>)
    requires WellFed(events) && Legal(events) && events != [] && Offers(events[|events| - 1])
    ensures var earlier, e := events[..|events| - 1], events[|events| - 1];
            && Enabled(StateAfter(earlier), e)
            && (e.Direct? ==> !HasTx(Offered(earlier), e.order.txId))
            && (e.Deliver? ==> e.order.txId !in DirectIds(earlier))
  {
    hide FitsU64, Enabled, HasTx, Named, StateAfter;
  }

  lemma OtherIsReadOff(s: System, e: Event)
    requires !Offers(e)
    ensures var s' := Step(s, e);
            && s'.fills == s.fills
            && forall k :: k in s'.markets ==>
                 && (k in s.markets || (e.Open? && k == e.key))
                 && s'.markets[k].ops ==
                      if k !in s.markets then []
                      else if e.Cancel? && e.key == k then s.markets[k].ops + [Remove(e.txId)] else s.markets[k].ops
  {
    hide FitsU64, KeyOf, Store, RemoveFrom;
  }

  // ----- the attempts at one fill

  /** How the attempts to publish a fill ended, in order: those made while it was the first of
      its market's unpublished fills. */
  function Tries(events: seq<Event>, m: Match): seq<Publish> {
    if events == [] then []
    else
      var earlier, e := events[..|events| - 1], events[|events| - 1];
      Tries(earlier, m) + if AttemptsAt(StateAfter(earlier), e, m) then [e.result] else []
  }

  predicate AttemptsAt(s: System, e: Event, m: Match) {
    e.Attempted? && Pending(s, e.key) != [] && Pending(s, e.key)[0] == m
  }

  /** Attempts are made until one is acknowledged, and at most five. */
  predicate Through(tries: seq<Publish>) {
    && 1 <= |tries| <= 5
    && (forall i :: 0 <= i < |tries| - 1 ==> !tries[i].Acked?)
    && (tries[|tries| - 1].Acked? || |tries| == 5)
  }

  /** Where a fill stands: waiting, being attempted for the `tries + 1`-st time, or through. */
  ghost predicate Standing(pending: seq<Match>, count: nat, m: Match, tries: seq<Publish>) {
    if m !in pending then Through(tries)
    else if m == pending[0] then |tries| == count < 5 && forall p :: p in tries ==> !p.Acked?
    else tries == []
  }

  function Count(s: System, key: string): nat {
    if key in s.markets && s.markets[key].job.Some? then s.markets[key].job.value.tries else 0
  }

  ghost predicate TriesInv(s: System, events: seq<Event>) {
    && (forall m :: m in s.fills ==>
          Standing(Pending(s, KeyOf(m.marketId)), Count(s, KeyOf(m.marketId)), m, Tries(events, m)))
    && (forall m :: m !in s.fills ==> Tries(events, m) == [])
  }

  ghost predicate NoRepeat(s: seq<Match>) {
    forall i, j :: 0 <= i < j < |s| ==> s[i] != s[j]
  }

  /** The unpublished fills are a tail of the market's fills, so none is there twice. */
  lemma PendingNoRepeat(s: System, key: string)
    requires FillsInv(s) && MarketStream(s, key)
    ensures NoRepeat(Pending(s, key))
  {
    hide FitsU64, KeyOf, MessageId, OfMarket, Sub, Pending, Run, Placed;
    var mine, pending := OfMarket(s.fills, key), Pending(s, key);
    OfMarketDistinct(s.fills, key);
    var n := |mine| - |pending|;
    assert forall i :: 0 <= i < |pending| ==> pending[i] == mine[n + i];
  }

  /** One attempt moves the fill it is at, and no other. */
  lemma StandingAfter(pending: seq<Match>, count: nat, m: Match, tries: seq<Publish>, result: Publish)
    requires NoRepeat(pending) && pending != [] && count < 5 && Standing(pending, count, m, tries)
    ensures var next := result.Acked? || count + 1 == 5;
            Standing(if next then pending[1..] else pending, if next then 0 else count + 1, m,
                     tries + if m == pending[0] then [result] else [])
  {
    hide FitsU64;
    assert pending == [pending[0]] + pending[1..] && pending[0] !in pending[1..];
    assert tries + [] == tries;
  }

  /** The fills of a new placing wait. */
  lemma NewStanding(pending: seq<Match>, m: Match)
    requires NoRepeat(pending) && m in pending
    ensures Standing(pending, 0, m, [])
  {
  }

  lemma OneMoreTry(events: seq<Event>, m: Match)
    requires events != []
    ensures var earlier, e := events[..|events| - 1], events[|events| - 1];
            Tries(events, m) == Tries(earlier, m) + if AttemptsAt(StateAfter(earlier), e, m) then [e.result] else []
  {
    hide StateAfter, AttemptsAt;
  }

  lemma CountAfterAttempt(s: System, key: string, result: Publish, k: string)
    requires Publishing(s, key)
    ensures var s', next := Step(s, Attempted(key, result)), result.Acked? || Count(s, key) + 1 == 5;
            && Pending(s', k) == (if k == key && next then Pending(s, k)[1..] else Pending(s, k))
            && Count(s', k) == if k != key then Count(s, k) else if next then 0 else Count(s, k) + 1
  {
    hide Store, FitsU64;
  }

  lemma AttemptKeepsTries(s: System, key: string, result: Publish, m: Match, tries: seq<Publish>)
    requires FillsInv(s) && StreamInv(s) && JobsAreOwn(s) && Publishing(s, key)
    requires Count(s, key) < 5 && m in s.fills && Standing(Pending(s, KeyOf(m.marketId)), Count(s, KeyOf(m.marketId)), m, tries)
    ensures var s' := Step(s, Attempted(key, result));
            Standing(Pending(s', KeyOf(m.marketId)), Count(s', KeyOf(m.marketId)), m,
                     tries + if AttemptsAt(s, Attempted(key, result), m) then [result] else [])
  {
    hide FitsU64, KeyOf, Step, Pending, Count, Standing, Run, Placed, DistinctIds, MarketStream;
    var k := KeyOf(m.marketId);
    CountAfterAttempt(s, key, result, k);
    PublishingPends(s, key);
    var head := Pending(s, key)[0];
    assert head in Pending(s, key) && KeyOf(head.marketId) == key && head in s.fills;
    if k == key {
      PendingNoRepeat(s, key);
      StandingAfter(Pending(s, key), Count(s, key), m, tries, result);
    } else {
      assert tries + [] == tries;
    }
  }

  lemma PublishingPends(s: System, key: string)
    requires Publishing(s, key)
    ensures Pending(s, key) != [] && key in s.markets
  {
  }

  lemma HeadCount(pending: seq<Match>, count: nat, tries: seq<Publish>)
    requires pending != [] && Standing(pending, count, pending[0], tries)
    ensures count < 5
  {
  }

  lemma BeginKeepsTries(s: System, order: Order, now: Seconds, viaNats: bool, m: Match, tries: seq<Publish>)
    requires KeyOf(order.marketId) in s.markets && Idle(s, KeyOf(order.marketId))
    requires var s' := Begin(s, order, now, viaNats);
             FillsInv(s') && StreamInv(s') && JobsAreOwn(s')
    requires m in Begin(s, order, now, viaNats).fills
    requires if m in s.fills then Standing(Pending(s, KeyOf(m.marketId)), Count(s, KeyOf(m.marketId)), m, tries)
             else tries == []
    ensures var s' := Begin(s, order, now, viaNats);
            Standing(Pending(s', KeyOf(m.marketId)), Count(s', KeyOf(m.marketId)), m, tries)
  {
    hide FitsU64, KeyOf, AddTo, Run, Placed, MarketStream, MessageId;
    var key, s' := KeyOf(order.marketId), Begin(s, order, now, viaNats);
    var more := AddTo(s.markets[key].book, order, now).matches;
    assert Pending(s', key) == more && s'.fills == s.fills + more && Count(s', key) == 0;
    assert MarketStream(s', key);
    PendingNoRepeat(s', key);
    if m in s.fills && KeyOf(m.marketId) == key {
      NotAgain(s.fills, more, m);
    } else if m !in s.fills {
      assert m in Pending(s', key) && KeyOf(m.marketId) == key;
      NewStanding(more, m);
    }
  }

  lemma NotAgain(fills: seq<Match>, more: seq<Match>, m: Match)
    requires DistinctIds(fills + more) && m in fills
    ensures m !in more
  {
    hide MessageId;
    var i :| 0 <= i < |fills| && fills[i] == m;
    forall j | 0 <= j < |more| ensures more[j] != m {
      assert (fills + more)[i] == m && (fills + more)[|fills| + j] == more[j];
    }
  }

  lemma OtherKeepsTries(s: System, e: Event, m: Match, tries: seq<Publish>)
    requires Enabled(s, e) && (e.Finish? || e.Cancel? || e.Open? || e.Close?)
    requires Standing(Pending(s, KeyOf(m.marketId)), Count(s, KeyOf(m.marketId)), m, tries)
    ensures var s' := Step(s, e);
            Standing(Pending(s', KeyOf(m.marketId)), Count(s', KeyOf(m.marketId)), m, tries)
  {
    hide FitsU64, KeyOf, RemoveFrom, Through;
  }

  lemma {:induction false} TriesHold(events: seq<Event>)
    requires WellFed(events) && Legal(events)
    ensures TriesInv(StateAfter(events), events)
  {
    hide FitsU64, AllInv, Enabled, Named, KeyOf, HasTx, Step, WellFed, Standing, Pending, Count, StateAfter, Tries;
    if events == [] {
      NothingTried();
    } else {
      var earlier, e := events[..|events| - 1], events[|events| - 1];
      WellFedPrefix(events);
      TriesHold(earlier);
      LastStep(events);
      var s := StateAfter(earlier);
      forall m ensures m in StateAfter(events).fills ==>
          Standing(Pending(StateAfter(events), KeyOf(m.marketId)), Count(StateAfter(events), KeyOf(m.marketId)), m, Tries(events, m))
        ensures m !in StateAfter(events).fills ==> Tries(events, m) == []
      {
        FillStands(events, m);
      }
    }
  }

  lemma NothingTried()
    ensures TriesInv(StateAfter([]), [])
  {
  }

  lemma FillStands(events: seq<Event>, m: Match)
    requires WellFed(events) && Legal(events) && events != []
    requires TriesInv(StateAfter(events[..|events| - 1]), events[..|events| - 1])
    ensures var s' := StateAfter(events);
            && (m in s'.fills ==> Standing(Pending(s', KeyOf(m.marketId)), Count(s', KeyOf(m.marketId)), m, Tries(events, m)))
            && (m !in s'.fills ==> Tries(events, m) == [])
  {
    hide FitsU64, Named, KeyOf, HasTx, Step, WellFed, Standing, Pending, Count, StateAfter, Tries, FillsInv, StreamInv, AcceptedInv, SeenInv;
    var earlier, e := events[..|events| - 1], events[|events| - 1];
    var s, s' := StateAfter(earlier), StateAfter(events);
    WellFedPrefix(events);
    HistoryInv(earlier);
    HistoryInv(events);
    LastStep(events);
    OneMoreTry(events, m);
    var tries := Tries(earlier, m);
    assert tries + [] == tries;
    if e.Attempted? {
      OtherIsReadOff(s, e);
      PublishingPends(s, e.key);
      var head := Pending(s, e.key)[0];
      assert head in Pending(s, e.key);
      HeadCount(Pending(s, e.key), Count(s, e.key), Tries(earlier, head));
      if m in s.fills { AttemptKeepsTries(s, e.key, e.result, m, tries); }
    } else if Offers(e) {
      OfferMeets(events);
      OfferTakesEffect(s, Offered(earlier), DirectIds(earlier), e);
      if s' != s {
        if m in s'.fills { BeginKeepsTries(s, e.order, e.now, e.Deliver?, m, tries); }
        BeginFills(s, e.order, e.now, e.Deliver?);
      }
    } else {
      OtherIsReadOff(s, e);
      if m in s.fills { OtherKeepsTries(s, e, m, tries); }
    }
  }

  lemma BeginFills(s: System, order: Order, now: Seconds, viaNats: bool)
    requires KeyOf(order.marketId) in s.markets
    ensures forall m :: m in s.fills ==> m in Begin(s, order, now, viaNats).fills
  {
    hide FitsU64, KeyOf, AddTo;
  }

  /** When no placement is in progress in a market, every fill it made was attempted until an
      attempt was acknowledged or five were made. */
  lemma EveryFillIsAttempted(events: seq<Event>, m: Match)
    requires WellFed(events) && Legal(events) && m in FillsMade(events)
    requires Idle(StateAfter(events), KeyOf(m.marketId))
    ensures Through(Tries(events, m))
  {
    hide FitsU64, KeyOf, WellFed, StateAfter, Tries, FillsMade, OpsOf, Legal, Run;
    TriesHold(events);
    BooksAreReadOff(events);
    assert Pending(StateAfter(events), KeyOf(m.marketId)) == [];
  }

  // ----- and what the stream holds of it

  ghost predicate WasStored(tries: seq<Publish>) {
    exists i :: 0 <= i < |tries| && !tries[i].NotStored?
  }

  lemma OneMoreStored(tries: seq<Publish>, p: Publish)
    ensures WasStored(tries + [p]) <==> WasStored(tries) || !p.NotStored?
    ensures tries + [] == tries
  {
    if WasStored(tries) {
      var i :| 0 <= i < |tries| && !tries[i].NotStored?;
      assert (tries + [p])[i] == tries[i];
    }
    assert (tries + [p])[|tries|] == p;
  }

  lemma OtherKeepsStream(s: System, e: Event)
    requires !e.Attempted?
    ensures Step(s, e).stream == s.stream
  {
    hide FitsU64, KeyOf, AddTo, RemoveFrom;
  }

  /** Settlement has a fill exactly when one of the attempts at it was stored. */
  lemma {:induction false} StreamHasWhatWasStored(events: seq<Event>, m: Match)
    requires WellFed(events) && Legal(events)
    ensures m in StateAfter(events).stream <==> WasStored(Tries(events, m))
  {
    hide FitsU64, Named, KeyOf, HasTx, Step, WellFed, Pending, StateAfter, Tries, AcceptedInv, SeenInv, WasStored, MarketStream, Store, DistinctIds;
    if events == [] {
      NothingStored(m);
    } else {
      var earlier, e := events[..|events| - 1], events[|events| - 1];
      var s := StateAfter(earlier);
      WellFedPrefix(events);
      StreamHasWhatWasStored(earlier, m);
      HistoryInv(earlier);
      LastStep(events);
      OneMoreTry(events, m);
      assert Tries(earlier, m) + [] == Tries(earlier, m);
      if e.Attempted? {
        PublishingPends(s, e.key);
        var head := Pending(s, e.key)[0];
        assert head in Pending(s, e.key);
        PendingAfterAttempt(s, e.key, e.result, e.key);
        StoreKeeps(s.stream, s.fills, head, e.result);
        StoreOnlyStores(s.stream, head, e.result);
        OneMoreStored(Tries(earlier, m), e.result);
      } else {
        OtherKeepsStream(s, e);
      }
    }
  }

  lemma NothingStored(m: Match)
    ensures m !in StateAfter([]).stream && !WasStored(Tries([], m))
  {
  }

  lemma StoreOnlyStores(stream: seq<Match>, m: Match, result: Publish)
    ensures result.NotStored? ==> Store(stream, m, result) == stream
  {
  }

  /** Settlement gets a market's fills, all of them and in order, when for each of them an
      attempt was stored. */
  lemma EveryStoredFillIsSettled(events: seq<Event>, key: string)
    requires WellFed(events) && Legal(events)
    requires forall m :: m in OfMarket(FillsMade(events), key) ==> WasStored(Tries(events, m))
    ensures OfMarket(StateAfter(events).stream, key) == OfMarket(FillsMade(events), key)
  {
    hide FitsU64, KeyOf, WellFed, StateAfter, Tries, FillsMade, OpsOf, Legal, Run, WasStored, Sub, DistinctIds;
    BooksAreReadOff(events);
    StreamIsTheFillLog(events, key);
    forall m | m in OfMarket(FillsMade(events), key) ensures m in StateAfter(events).stream {
      StreamHasWhatWasStored(events, m);
    }
  }
}
