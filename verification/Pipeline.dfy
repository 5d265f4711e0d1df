/** The order and settlement pipeline around the books, as a step system: orders delivered at
    least once or placed directly, one book per market, fills published to the settlement
    stream one attempt at a time, markets interleaving freely. */
module Pipeline {
  import opened Orders
  import opened Pairing
  import opened Matching
  import opened Runs
  import opened MessageIds

  const MAX_ATTEMPTS: nat := 5

  /** ASCII lower case; a market id is a UUID. */
  function Lower(s: string): string {
    seq(|s|, i requires 0 <= i < |s| => if 'A' <= s[i] <= 'Z' then s[i] - 'A' + 'a' else s[i])
  }

  function KeyOf(marketId: string): string { Lower(marketId) }

  /** How one publish attempt ends: stored and acknowledged, stored with the acknowledgement
      lost, or not stored. */
  datatype Publish = Acked | AckLost | NotStored

  /** The stream drops a message whose ID it has already stored. */
  function Store(stream: seq<Match>, m: Match, p: Publish): seq<Match> {
    if p.NotStored? || HasId(stream, MessageId(m)) then stream else stream + [m]
  }

  predicate HasId(stream: seq<Match>, id: string) {
    exists k :: 0 <= k < |stream| && MessageId(stream[k]) == id
  }

  /** A placement in progress: it holds its book's lock until its fills are published or
      given up and its txId is recorded. */
  datatype Job = Job(txId: string, fills: seq<Match>, tries: nat, viaNats: bool)

  /** `ops` is history: what has been done to this book since the market was opened. */
  datatype Market = Market(book: BookState, job: Option<Job>, ops: seq<Op>)

  /** `fills` and `accepted` are history: every fill made, and every order entered into a book. */
  datatype System = System(
    markets: map<string, Market>,
    seen: set<string>,
    stream: seq<Match>,
    fills: seq<Match>,
    accepted: seq<Order>)

  const START := System(map[], {}, [], [], [])

  datatype Event =
    | Deliver(order: Order, now: Seconds)
    | Direct(order: Order, now: Seconds)
    | Attempted(key: string, result: Publish)
    | Finish(key: string)
    | Cancel(key: string, txId: string)
    | Open(key: string)
    | Close(key: string)

  predicate Idle(s: System, key: string) {
    key in s.markets ==> s.markets[key].job.None?
  }

  ghost predicate AllIdle(s: System) {
    forall key :: key in s.markets ==> s.markets[key].job.None?
  }

  /** The subscriber handles one delivery at a time. */
  ghost predicate NatsIdle(s: System) {
    forall key :: key in s.markets && s.markets[key].job.Some? ==> !s.markets[key].job.value.viaNats
  }

  predicate Publishing(s: System, key: string) {
    key in s.markets && s.markets[key].job.Some? && s.markets[key].job.value.fills != []
  }

  /** The locks: a book serves one placement or cancel at a time, and the set of markets
      changes only when no placement is in progress. */
  ghost predicate Enabled(s: System, e: Event) {
    match e
    case Deliver(order, _) => NatsIdle(s) && Idle(s, KeyOf(order.marketId))
    case Direct(order, _) => Idle(s, KeyOf(order.marketId))
    case Attempted(key, _) => Publishing(s, key)
    case Finish(key) => key in s.markets && s.markets[key].job.Some? && !Publishing(s, key)
    case Cancel(key, _) => Idle(s, key)
    case Open(_) => AllIdle(s)
    case Close(_) => AllIdle(s)
  }

  function Begin(s: System, order: Order, now: Seconds, viaNats: bool): System
    requires KeyOf(order.marketId) in s.markets
  {
    var key := KeyOf(order.marketId);
    var out := AddTo(s.markets[key].book, order, now);
    s.(markets := s.markets[key := Market(out.book, Some(Job(order.txId, out.matches, 0, viaNats)),
                                          s.markets[key].ops + [Add(order, now)])],
       fills := s.fills + out.matches,
       accepted := s.accepted + [order])
  }

  /** A duplicate is acknowledged and ignored; a missing market leaves it to be redelivered. */
  function Step(s: System, e: Event): System {
    match e
    case Deliver(order, now) =>
      if order.txId in s.seen || KeyOf(order.marketId) !in s.markets then s else Begin(s, order, now, true)
    case Direct(order, now) =>
      if KeyOf(order.marketId) !in s.markets then s else Begin(s, order, now, false)
    case Attempted(key, result) =>
      if !Publishing(s, key) then s
      else
        var job := s.markets[key].job.value;
        var m := job.fills[0];
        var job' := if result.Acked? || job.tries + 1 == MAX_ATTEMPTS
                    then job.(fills := job.fills[1..], tries := 0)
                    else job.(tries := job.tries + 1);
        s.(markets := s.markets[key := s.markets[key].(job := Some(job'))],
           stream := Store(s.stream, m, result))
    case Finish(key) =>
      if key !in s.markets || s.markets[key].job.None? then s
      else s.(markets := s.markets[key := s.markets[key].(job := None)],
              seen := s.seen + {s.markets[key].job.value.txId})
    case Cancel(key, txId) =>
      if key !in s.markets then s
      else
        var mk := s.markets[key];
        s.(markets := s.markets[key := Market(RemoveFrom(mk.book, txId), mk.job, mk.ops + [Remove(txId)])])
    case Open(key) =>
      if key in s.markets then s else s.(markets := s.markets[key := Market(EMPTY_BOOK, None, [])])
    case Close(key) =>
      s.(markets := map k | k in s.markets && k != key :: s.markets[k])
  }

  function StateAfter(events: seq<Event>): System {
    if events == [] then START else Step(StateAfter(events[..|events| - 1]), events[|events| - 1])
  }

  ghost predicate Legal(events: seq<Event>) {
    events == [] || (Legal(events[..|events| - 1]) && Enabled(StateAfter(events[..|events| - 1]), events[|events| - 1]))
  }
}
