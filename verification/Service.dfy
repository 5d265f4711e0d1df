/** The order book service: the books, the txId lookup set and the calls on them. The service
    publishes to a stream that drops ids it has stored; how each publish attempt ends is up to
    the network. */
module Service {
  import opened Orders
  import opened Pairing
  import opened Matching
  import opened MessageIds
  import opened Pipeline

  /** How the `j`-th attempt to publish a call's `i`-th fill ends. */
  type Network = (nat, nat) -> Publish

  datatype Core = Core(books: map<string, BookState>, seen: set<string>, stream: seq<Match>)

  // ----- what the calls compute

  datatype Retried = Retried(stream: seq<Match>, acked: bool)

  /** Publishing one fill, from its `j`-th attempt on. */
  function Retry(stream: seq<Match>, m: Match, net: Network, i: nat, j: nat): Retried
    decreases MAX_ATTEMPTS - j
  {
    if j >= MAX_ATTEMPTS then Retried(stream, false)
    else if net(i, j).Acked? then Retried(Store(stream, m, net(i, j)), true)
    else Retry(Store(stream, m, net(i, j)), m, net, i, j + 1)
  }

  /** Publishing a call's fills in order, from the `i`-th on. */
  function PublishAll(stream: seq<Match>, fills: seq<Match>, net: Network, i: nat): seq<Match>
    requires i <= |fills|
    decreases |fills| - i
  {
    if i == |fills| then stream
    else PublishAll(Retry(stream, fills[i], net, i, 0).stream, fills, net, i + 1)
  }

  function PlacedIn(c: Core, order: Order, now: Seconds, net: Network): Core {
    var key := KeyOf(order.marketId);
    if key !in c.books then c
    else
      var out := AddTo(c.books[key], order, now);
      Core(c.books[key := out.book], c.seen + {order.txId}, PublishAll(c.stream, out.matches, net, 0))
  }

  datatype Call =
    | AddMarketCall(marketId: string)
    | CloseMarketCall(marketId: string)
    | CancelOrderCall(marketId: string, txId: string)
    | PlaceOrderCall(order: Order, now: Seconds, net: Network)
    | DeliveryCall(order: Order, now: Seconds, net: Network)

  /** What a call leaves behind. */
  function Effect(c: Core, call: Call): Core {
    match call
    case AddMarketCall(id) =>
      if KeyOf(id) in c.books then c else c.(books := c.books[KeyOf(id) := EMPTY_BOOK])
    case CloseMarketCall(id) => c.(books := c.books - {KeyOf(id)})
    case CancelOrderCall(id, txId) =>
      if KeyOf(id) !in c.books then c
      else c.(books := c.books[KeyOf(id) := RemoveFrom(c.books[KeyOf(id)], txId)])
    case PlaceOrderCall(order, now, net) => PlacedIn(c, order, now, net)
    case DeliveryCall(order, now, net) =>
      if order.txId in c.seen then c else PlacedIn(c, order, now, net)
  }

  predicate PlacingOverflows(c: Core, order: Order, now: Seconds) {
    KeyOf(order.marketId) in c.books && AddOverflows(c.books[KeyOf(order.marketId)], order, now)
  }

  // ----- the program's form

  /** `Stuck` is the arithmetic overflow that `Book.Add` reports. */
  datatype Placing = MarketMissing | Recorded | Stuck

  datatype Handling = Acknowledged | LeftForRedelivery | HandlerStuck

  class JetStream {
    var stored: seq<Match>

    constructor ()
      ensures stored == []
    {
      stored := [];
    }

    method Receive(m: Match, result: Publish) returns (acked: bool)
      modifies this
      ensures stored == Store(old(stored), m, result)
      ensures acked <==> result.Acked?
    {
      if !result.NotStored? {
        var id := MessageId(m);
        var k := 0;
        while k < |stored| && MessageId(stored[k]) != id
          invariant k <= |stored| && stored == old(stored)
          invariant forall l :: 0 <= l < k ==> MessageId(stored[l]) != id
        {
          k := k + 1;
        }
        if k == |stored| {
          stored := stored + [m];
        }
      }
      acked := result.Acked?;
    }
  }

  class OrderBookService {
    var orderBooks: map<string, Book>
    var txIds: set<string>
    const jetStream: JetStream

    /** Each market has a book of its own. */
    ghost predicate Valid()
      reads this
    {
      forall k, l :: k in orderBooks && l in orderBooks && k != l ==> orderBooks[k] != orderBooks[l]
    }

    ghost function State(): Core
      reads this, jetStream, orderBooks.Values
    {
      Core(map k | k in orderBooks :: orderBooks[k].State(), txIds, jetStream.stored)
    }

    constructor (stream: JetStream)
      ensures Valid() && jetStream == stream && State() == Core(map[], {}, stream.stored)
    {
      orderBooks, txIds, jetStream := map[], {}, stream;
    }

    method AddMarket(marketId: string) returns (added: bool)
      requires Valid()
      modifies this`orderBooks
      ensures Valid()
      ensures added <==> KeyOf(marketId) !in old(orderBooks)
      ensures State() == Effect(old(State()), AddMarketCall(marketId))
    {
      if KeyOf(marketId) in orderBooks {
        return false;
      }
      var book := new Book();
      orderBooks := orderBooks[KeyOf(marketId) := book];
      return true;
    }

    method CloseMarket(marketId: string) returns (closed: bool)
      requires Valid()
      modifies this`orderBooks
      ensures Valid()
      ensures closed <==> KeyOf(marketId) in old(orderBooks)
      ensures State() == Effect(old(State()), CloseMarketCall(marketId))
    {
      closed := KeyOf(marketId) in orderBooks;
      orderBooks := orderBooks - {KeyOf(marketId)};
    }

    /** At most five attempts, waiting 200 ms and twice as long after each failure. */
    method PublishMatchWithRetry(m: Match, net: Network, i: nat) returns (acked: bool, waited: nat)
      modifies jetStream
      ensures Retried(jetStream.stored, acked) == Retry(old(jetStream.stored), m, net, i, 0)
      ensures acked ==> waited < 200 * 31
      ensures !acked ==> waited == 200 * 31
    {
      waited := 0;
      var delay := 200;
      var attempt := 0;
      while attempt < MAX_ATTEMPTS
        invariant attempt <= MAX_ATTEMPTS
        invariant delay == [200, 400, 800, 1600, 3200, 6400][attempt] && waited == delay - 200
        invariant Retry(old(jetStream.stored), m, net, i, 0) == Retry(jetStream.stored, m, net, i, attempt)
      {
        acked := jetStream.Receive(m, net(i, attempt));
        if acked {
          return;
        }
        waited := waited + delay;
        delay := delay * 2;
        attempt := attempt + 1;
      }
      acked := false;
    }

    /** Publishing a call's fills, in order. */
    method PublishMatches(matches: seq<Match>, net: Network)
      modifies jetStream
      ensures jetStream.stored == PublishAll(old(jetStream.stored), matches, net, 0)
    {
      hide Store;
      var i := 0;
      while i < |matches|
        invariant i <= |matches|
        invariant PublishAll(old(jetStream.stored), matches, net, 0) == PublishAll(jetStream.stored, matches, net, i)
      {
        var _, _ := PublishMatchWithRetry(matches[i], net, i);
        i := i + 1;
      }
    }

    /** None of the call's effects happen when the market is missing. */
    method PlaceOrder(order: Order, now: Seconds, net: Network) returns (r: Placing)
      requires Valid()
      modifies this`txIds, jetStream, orderBooks.Values
      ensures Valid() && orderBooks == old(orderBooks)
      ensures r.MarketMissing? <==> KeyOf(order.marketId) !in orderBooks
      ensures r.Stuck? <==> PlacingOverflows(old(State()), order, now)
      ensures !r.Stuck? ==> State() == Effect(old(State()), PlaceOrderCall(order, now, net))
    {
      hide AddTo, Store, KeyOf, AddOverflows, PublishAll;
      var key := KeyOf(order.marketId);
      if key !in orderBooks {
        return MarketMissing;
      }
      var matches := orderBooks[key].Add(order, now);
      if matches.None? {
        return Stuck;
      }
      PublishMatches(matches.value, net);
      txIds := txIds + {order.txId};
      return Recorded;
    }

    /** One delivery from the order stream: a duplicate is acknowledged and ignored, an order for
        a missing market is left unacknowledged, to be redelivered. */
    method HandleDelivery(order: Order, now: Seconds, net: Network) returns (r: Handling)
      requires Valid()
      modifies this`txIds, jetStream, orderBooks.Values
      ensures Valid() && orderBooks == old(orderBooks)
      ensures r.LeftForRedelivery? <==> order.txId !in old(txIds) && KeyOf(order.marketId) !in orderBooks
      ensures r.HandlerStuck? <==> order.txId !in old(txIds) && PlacingOverflows(old(State()), order, now)
      ensures !r.HandlerStuck? ==> State() == Effect(old(State()), DeliveryCall(order, now, net))
    {
      hide PlacedIn, KeyOf;
      if order.txId in txIds {
        return Acknowledged;
      }
      var placing := PlaceOrder(order, now, net);
      r := match placing
           case MarketMissing => LeftForRedelivery
           case Recorded => Acknowledged
           case Stuck => HandlerStuck;
    }

    /** None when the market is missing; otherwise whether the order was resting. */
    method CancelOrder(marketId: string, txId: string) returns (r: Option<bool>)
      requires Valid()
      modifies orderBooks.Values
      ensures Valid()
      ensures r.None? <==> KeyOf(marketId) !in orderBooks
      ensures r.Some? ==> (r.value <==> exists o :: o in old(State()).books[KeyOf(marketId)].Orders() && o.txId == txId)
      ensures State() == Effect(old(State()), CancelOrderCall(marketId, txId))
    {
      hide RemoveFrom, KeyOf;
      if KeyOf(marketId) !in orderBooks {
        return None;
      }
      var found := orderBooks[KeyOf(marketId)].Remove(txId);
      r := Some(found);
    }
  }
}
