# CLOB verification

A Dafny model of the PrismV2 central limit order book, of the order and settlement pipeline
around it, and of the message codec and price chart of its web client, with proofs of what
they promise.

## What is modelled

**The matching engine.** `Orders`, `Fills`, `Pairing`, `PriceTime` and `Matching` model
`clob/src/matching.rs`. `Matching.Book` is the program's book: two vectors that `Add` sorts,
walks with an index, removes from and appends to. `Fills.FindMaxFill` is its binary search, in
64-bit arithmetic. Both are proved equal to functions on values (`Matching.AddTo`,
`Fills.MaxFill`), and the theorems are about those functions:

- `Quiescence`, `Runs`: over every sequence of adds and removes, no resting bid and ask can
  still trade, and the match log accounts for every order's fill state.
- `Priority`: price-time order of the fills of one add, and no trade-through.
- `Lifecycle`: which pairs trade and at what price, that no live order is lost by an add or over a
  whole run, exactly when an expired one leaves and when the incoming one rests, what a cancel
  takes out.
- `Guarantees`: limit prices kept cumulatively up to rounding, caps and quantities kept,
  collateral conserved, finished orders gone for good.
- `Rebuild`: re-adding the resting orders of any reachable book makes no match, and every further
  run from the rebuilt book makes the matches it would have made without the restart.
- `Examples`: concrete runs at which the code departs from its documentation.
- `MessageIds`, `Views`: the per-fill message ID as text; snapshot, best prices and depth.

**The pipeline.** `Pipeline` is a step system: at-least-once deliveries, direct placements,
cancels, markets opening and closing, and publish attempts that fail or lose their
acknowledgement, with the markets interleaving freely. `PipelineLaws` and `Settlement` prove
exactly-once entry of orders and that settlement sees each market's fills in order; `Attempts`
reads every book, every fill and every publish attempt off the history, and proves that each fill
is attempted until acknowledged, five times at most.

`Service` is the program's form of it, a class over a map of `Book` objects. `ServiceSteps` shows
that every service call is an uninterrupted stretch of the steps and every sequence of calls a
legal history of them. `Accounts` and `Published` state what the service does from its calls alone,
as an account for each market id up to case: every book is the run of its own market's placings and
cancels since it was opened, markets do not touch one another, no live order is lost, and the
stream is exactly the fills of which an attempt was stored.

**The web client.** `Wire`, `WireLaws`, `UnknownFields` and `WireIO` model the binary codec,
`PriceChart` the resampler and the request chunks, `WorkerPool` the pool that fetches them.

## Reading the statements

An order carries one field the program does not have, `arrival`: its place in the history being
observed. No operation reads it. It names orders in theorems and says which of two came first;
`Runs.Stamped` says that a history numbers its placements in order.

The engine trusts its callers ("assume validated upstream"). What its additions need of them is
the type `Orders.Order`: collateral filled plus shares remaining fits in 64 bits. Every order in a
consistent fill state meets it, whatever its quantity (`Orders.ConsistentFits`). Every addition the
engine makes is then within range but one, in the search for a fill: `Matching.Book.Add` reports
that overflow as `None`, exactly when `Matching.AddOverflows`, and a service call that meets it as
stuck. Theorems about runs and calls speak of adds that return. Time is a signed 64-bit timestamp
clamped at zero.

Assumptions of the pipeline theorems, gathered in `Settlement.WellFed` and `Pipeline.Enabled`, and
for calls in `ServiceSteps.WellCalled` (`Accounts.BooksAreAccounts` needs none): the duplicate
check is made only for deliveries, so a direct placement's txId is assumed fresh; market and order
ids contain no colon; `add_market`'s check and insert, and a delivery's duplicate check and its
placement, happen without another call in between; the stream drops a message whose id it has
stored.

## Where the code differs from its documentation

- The repository's `README.md:773` and `clob/README.md:20` say a fill executes at the resting
  order's limit. When that limit is at the edge of the range the code uses the incoming order's
  (`clob/src/matching.rs:70-77`). `Lifecycle.FillsAtRestingLimit` states what the code does;
  `Examples.FillAtIncomingLimit` is such a run.
- The comment at `clob/src/matching.rs:47-49` promises the largest fill for every input. With
  2^64 - 1 shares on offer and caps that do not allow them, `hi - lo + 1` does not fit in 64 bits.
  `Fills.FindMaxFill` states exactly when, `Fills.MidpointCanOverflow` gives such an input, and
  `Matching.OverflowNeedsTwo` says what an add needs to come to it.
- `clob/README.md:32-33` and `docs/PRISM_V2_ORDER_PROTOCOL.md:47` say that orders near their
  deadline are dropped. They never trade (`Lifecycle.FillsAtRestingLimit`), but an add drops one
  only if its walk comes to it: `Lifecycle.ExpiredOrderStays` says exactly when it does not, and
  in `Examples.ExpiredOrderCanRest` one still rests after an add.
- `README.md:773` says that every pair is one of the contract's four pairings. The codes of `side`
  and `action` are not checked, and an ask that is neither on side YES nor a BUY has no pairing.
  `Guarantees.CollateralConserved` gives the exact difference over every run, whatever the codes,
  `Guarantees.MatchConserves` says when a match makes one, and
  `Examples.UnpairedAskDoesNotBalance` is a run with one.

## Model

| member | source | states |
|---|---|---|
| Fills.LegsMonotone | clob/src/matching.rs:47-49 | neither leg's cost decreases as the fill grows |
| Fills.CapsPrefix | clob/src/matching.rs:47-49 | the fills both caps allow are a prefix |
| Fills.MaxFillIsMaximal | clob/src/matching.rs:47-68 | an answer is the largest fill within the caps that pays both legs; no answer means there is none |
| Fills.FindMaxFill | clob/src/matching.rs:50-68 | the binary search finds that fill for every input, except exactly when its first midpoint overflows |
| Fills.MidpointCanOverflow | clob/src/matching.rs:59-66 | an input on which the midpoint overflows |
| Pairing.MatchIsSettleable | clob/src/matching.rs:133-153 | every fill made has both legs positive by the contract's rounding, a price between the two limits, different traders, and fits both remainders and both BUY caps |
| Pairing.AdmissibleIsSettling | clob/src/matching.rs:41-57 | the engine's cap and split tests, saturation included, admit exactly the fills the contract settles, stated apart in plain arithmetic |
| Pairing.AttemptIsLargestSettling | clob/src/matching.rs:129-153 | between two traders a fill is made whenever the contract would settle one, and it is the largest |
| Pairing.NeverAgain | clob/src/matching.rs:129-142 | a pair that cannot trade never can after more fills of either |
| Pairing.FillSettlesThePair | clob/src/matching.rs:137-165 | after a fill one order is done or the pair can trade no further |
| PriceTime.BestFirstIsStableSort | clob/src/matching.rs:110-115 | the side is sorted best price first, is a permutation, and keeps the sequence at every price |
| PriceTime.BestFirstIsPriceTime | clob/src/matching.rs:110-115 | sorting a side whose equal prices are in arrival order gives strict price-time order |
| Matching.Book.Add | clob/src/matching.rs:97-172 | the in-place loop leaves the book and returns the matches that the recursive walk gives, unless a fill's search overflows on the way, which it reports exactly |
| Matching.OverflowNeedsTwo | clob/src/matching.rs:59-66 | an add overflows only when an incoming order of 2^64 - 1 shares meets a resting one of as many |
| Matching.Book.TryPair | clob/src/matching.rs:129-153 | skips and sizes a crossing pair as the specification's attempt does, overflow reported |
| Matching.Book.Remove | clob/src/matching.rs:174-182 | takes out the first order of that id, bids first, and says whether there was one |
| Quiescence.WalkLeavesNothing | clob/src/matching.rs:117-166 | if the incoming order has shares left, nothing it leaves behind can trade with it |
| Quiescence.AddKeepsInv | clob/src/matching.rs:97-172 | adding keeps sides, arrival order at equal prices, positive remainders and quietness |
| Quiescence.RemoveKeepsInv | clob/src/matching.rs:174-182 | removing keeps them too, and takes out no order of another id |
| Runs.NoRestingPairCanTrade | clob/src/matching.rs:97-182 | in every reachable book a bid and an ask do not cross, or share an address or account, or there is no fill the contract would settle at the earlier one's price |
| Runs.RunAccounted | clob/src/matching.rs:97-182 | after every run the log gives the fill state of every resting order and of both parties of every match, and every match is settleable and as large as it can be |
| Runs.LogDeterminesBook | clob/src/matching.rs:145-170 | each resting order is a placed order advanced by exactly its fills in the log |
| Runs.MatchesChain | clob/src/matching.rs:145-159 | the state a match carries is the previous match's state plus that match's fill |
| Ledger.WalkAdvances | clob/src/matching.rs:145-170 | every change an add makes to an order is in its matches |
| Ledger.WalkChains | clob/src/matching.rs:145-159 | both parties of each match are where the earlier matches of the add took them |
| Priority.NoTradeThrough | clob/src/matching.rs:110-166 | matches of an add come in price-time order, and no better-placed order left in the book could have been filled instead |
| Priority.WhyPassedOver | clob/src/matching.rs:126-142 | a crossing order is passed over only for a shared address or account, or when the contract would settle no fill of the pair |
| Priority.EqualPricesStayInOrder | clob/src/matching.rs:110-115 | in every reachable book orders at one price stand in arrival order |
| Lifecycle.FillsAtRestingLimit | clob/src/matching.rs:70-82 | each fill is with a resting order of another trader, neither within 30 s of its deadline, at the resting limit or, at the edge, the incoming one, and is the largest the contract would settle |
| Lifecycle.AddLosesNothing | clob/src/matching.rs:97-170 | every order more than 30 s from its deadline, the incoming one included, is in the book afterwards, advanced, if the new matches leave it shares to fill |
| Lifecycle.RefusedChangesNothing | clob/src/matching.rs:99-102 | an order within 30 s of its deadline, or without shares left, changes no book and makes no match |
| Lifecycle.IncomingRests | clob/src/matching.rs:99-170 | over every run, the incoming order is in the book after its add if and only if it is more than 30 s from its deadline and its matches leave it shares |
| Lifecycle.ExpiredOrderStays | clob/src/matching.rs:117-128 | an order within 30 s of its deadline survives an add if and only if it is on the incoming order's side, or that order is refused, or among the better placed a live one does not cross or they fill it |
| Lifecycle.LiveOrderRests | clob/src/matching.rs:97-182 | over a whole run, a placed order live at every add since, never cancelled and left shares by the log is resting, advanced by the log |
| Lifecycle.CancelTakesOne | clob/src/orderbook.rs:102-117 | with distinct ids a cancel takes out exactly the order of that id |
| Guarantees.PriceGuarantee | clob/src/matching.rs:28-39 | over an order's n fills BUY YES pays at most and SELL NO receives at least its limit; BUY NO and SELL YES are within n units of it |
| Guarantees.CapAdvice | docs/PRISM_V2_ORDER_PROTOCOL.md:48-55 | at every state an order trades from, incoming or resting, the documented BUY YES cap allows any fill; the BUY NO cap with slack s allows any of the first s fills |
| Guarantees.CapAdviceNeverCuts | docs/PRISM_V2_ORDER_PROTOCOL.md:48-55 | so at that cap no match of a run is cut by the order: if shares of both parties are left, the other one is exactly at its cap |
| Guarantees.MatchConserves | README.md:773 | a match's collateral balances up to the imbalance, which is zero exactly when the ask is paired or the two legs are equal |
| Guarantees.CollateralConserved | README.md:773 | over every run of orders of any codes, BUY collateral less SELL collateral, summed over the orders' accounts, is shares minted less shares merged plus the unpaired asks' imbalance, which is zero when all orders are paired |
| Guarantees.BoundsHold | clob/src/matching.rs:155-159 | at every point of the log a consistent order stays consistent |
| Guarantees.EveryStateConsistent | clob/src/matching.rs:97-172 | all resting orders, and all match parties before and after, keep collateral <= shares <= quantity and BUY caps |
| Guarantees.ExhaustedIsFinal | clob/src/matching.rs:41-45 | an order that has paid its cap is in no later match |
| Guarantees.CapCutIsFinal | clob/src/matching.rs:42-68 | a fill below both remainders leaves one BUY order exactly at its cap, and it trades no more |
| Guarantees.NoReturn | clob/src/matching.rs:97-182 | an order that left the book does not come back and is in no later match |
| Rebuild.RebuildIsFixpoint | clob/README.md:36-37 | re-adding a reachable book's unexpired resting orders in arrival order makes no match and gives the same price-time order |
| Rebuild.SameFuture | clob/src/matching.rs:97-182 | two runs whose books list the same orders make the same matches under every further sequence of adds and cancels |
| Rebuild.RebuildIsInvisible | clob/README.md:36-37 | so every further run from the rebuilt book makes the matches it would have made from the book itself |
| Examples.UnpairedAskDoesNotBalance | clob/src/matching.rs:19-21 | a run with an ask of side code 2 whose collateral does not balance |
| Examples.ExpiredOrderCanRest | clob/src/matching.rs:117-128 | a run in which an order 10 s from its deadline rests after an add |
| Examples.FillAtIncomingLimit | clob/src/matching.rs:70-77 | a run with a fill at the incoming order's limit, not the resting one's |
| MessageIds.MessageIdInjective | clob/src/nats.rs:113-116 | the colon-joined text determines all five parts |
| MessageIds.MessageIdsDistinct | clob/src/nats.rs:107-116 | no two fills of a run share a message ID |
| Views.SnapshotIsPrefix | clob/src/orderbook.rs:220-242 | a shallower snapshot is a prefix of the full one |
| Views.EntryIsOrder | clob/src/orderbook.rs:224-241 | the k-th entry listed carries the k-th best order's id, account, side, action, limit and shares left |
| Views.SnapshotHeadIsBestPrice | clob/src/orderbook.rs:87-90 | the price update's best prices are the heads of the full snapshot |
| Views.DepthIsWhatIsListed | clob/src/orderbook.rs:156-163 | the saturating depth is the total the full snapshot lists, capped once |
| Views.FillsFollowTheListing | clob/src/orderbook.rs:233-236 | the next order's fills take the opposite listing from left to right |
| PipelineLaws.NewIdsDistinct | clob/src/nats.rs:107-116 | new fills share no message ID with each other or with any earlier fill of any market |
| PipelineLaws.StoreKeeps | clob/src/nats.rs:107-125 | an attempt stores the fill at most once, and a stored attempt leaves it in the stream |
| PipelineLaws.AttemptKeepsStream | clob/src/nats.rs:129-148 | whatever an attempt's outcome, each market's stored messages stay a subsequence of its fills |
| Settlement.OfferIsNew | clob/src/nats.rs:49-64 | the lookup set, written only when a placement ends, still lets no order in twice |
| Settlement.AcceptedAreFirst | clob/src/nats.rs:49-75 | the accepted orders are the first offer of each txId made while its market is open |
| Settlement.ExactlyOnce | clob/src/orderbook.rs:47-68 | leaving out every other offer is a legal history with the same books, fills and messages |
| Settlement.StreamIsTheFillLog | clob/src/orderbook.rs:205-217 | a market's stored messages are a duplicate-free subsequence of its fills in order, so all of them in order when each is stored |
| Attempts.BooksAreReadOff | clob/src/orderbook.rs:31-179 | each open book is the run of its market's first placings and cancels since it was opened, and the fills are those runs', all read off the history |
| Attempts.EveryFillIsAttempted | clob/src/nats.rs:127-148 | when a market is idle, each fill it made was attempted until an attempt was acknowledged or five were made |
| Attempts.StreamHasWhatWasStored | clob/src/nats.rs:107-125 | a fill is in the stream if and only if one of the attempts at it was stored |
| Attempts.EveryStoredFillIsSettled | clob/src/orderbook.rs:205-217 | a market's messages are its fills, all and in order, when for each an attempt was stored |
| Settlement.OpenBooksAreQuiet | clob/src/orderbook.rs:52-68 | every open book is a run of its accepted orders, so it is quiet |
| Service.JetStream.Receive | clob/src/nats.rs:117-122 | stores a message unless its id is stored, and acknowledges as the network allows |
| Service.OrderBookService.PublishMatchWithRetry | clob/src/nats.rs:129-148 | at most five attempts until one is acknowledged, with the doubling waits |
| Service.OrderBookService.PlaceOrder | clob/src/orderbook.rs:52-68 | matches, publishes the fills in order and records the txId (`Accounts.BooksAreAccounts`, `Published.StreamIsWhatReached`), or does nothing when the market is missing; stuck exactly when the book's add overflows |
| Service.OrderBookService.HandleDelivery | clob/src/nats.rs:52-65 | ignores and acknowledges a duplicate, leaves a failed placement unacknowledged; stuck exactly when a new order's add overflows |
| Service.OrderBookService.CancelOrder | clob/src/orderbook.rs:102-117 | removes from that market's book only (`Accounts.CancelTakesOneOut`), says whether the order was there, and reports a missing market |
| Service.OrderBookService.AddMarket | clob/src/orderbook.rs:31-45 | opens an empty book and never replaces one (`Accounts.BooksAreAccounts`) |
| Service.OrderBookService.CloseMarket | clob/src/orderbook.rs:169-179 | drops that market's book only (`Accounts.OtherBooksUntouched`) |
| ServiceSteps.PlacementIsSteps | clob/src/orderbook.rs:52-68 | a placement is an enabled stretch of pipeline steps with the same effect |
| ServiceSteps.CallIsSteps | clob/src/orderbook.rs:31-179 | every call, a duplicate or one for a missing market included, has the effect of its enabled steps and leaves no placement in progress |
| ServiceSteps.StepsExtendHistory | clob/src/nats.rs:49-75 | enabled steps after a legal history make a legal history that ends where the steps end |
| ServiceSteps.CallsAreAHistory | clob/src/nats.rs:49-75 | every sequence of calls, with every network, is a legal history with the calls' effect |
| ServiceSteps.ServiceSettles | clob/src/orderbook.rs:205-217 | of every sequence of calls: no message ID twice, each market's messages in the order of its fills, each txId accepted once, every open book quiet |
| Accounts.KeysAgree | clob/src/orderbook.rs:35-41 | two ids name one market if and only if they are equal up to ASCII case |
| Accounts.BooksAreAccounts | clob/src/orderbook.rs:31-179 | after any calls, the open markets, their books and the txIds are what the calls alone say: runs of each market's own placings and cancels since it was opened |
| Accounts.CancelTakesOneOut | clob/src/orderbook.rs:102-117 | a cancel takes exactly the order of that txId out of that market's book; every other book, the txIds and the stream stay |
| Accounts.OtherBooksUntouched | clob/src/orderbook.rs:35-172 | a call leaves the book of every market whose id differs beyond case as it is |
| Accounts.MarketsAreApart | clob/src/orderbook.rs:52-68 | both parties of every fill, and every resting order, were offered for that market, up to case and fill state |
| Accounts.LiveOrderIsListed | clob/src/orderbook.rs:31-179 | an entered order is in its market's book, advanced by the market's fills, unless these exhaust it, it is cancelled, its market is closed, or an order is added there near its deadline |
| Published.StreamIsWhatReached | clob/src/orderbook.rs:205-217 | for every network, the stream is exactly the fills of which one of at most five attempts was stored, in the order made |
| Published.EveryFillIsPublished | clob/src/orderbook.rs:205-217 | if an attempt at every fill is stored, settlement gets exactly each market's fills, in order |
| Published.AcknowledgedReaches | clob/src/nats.rs:129-136 | in particular when every first attempt is acknowledged |
| WireLaws.VarintRoundTrip | web/gen/clob.ts:482-498 | a varint reads back to its value and stops at its end |
| WireLaws.ReadsIntoTarget | web/gen/clob.ts:533-596 | reading written bytes into any target gives the field-wise merge, for every good table of fields |
| WireLaws.ReadsBack | web/gen/clob.ts:374-503 | reading into a new message gives the message back |
| UnknownFields.ReadsAroundUnknown | web/gen/clob.ts:828-834 | unknown fields of every wire type, groups nested to any depth, before, between and after a message's fields change nothing of what is read |
| WireIO.MessagesRoundTrip | web/gen/clob.ts:1127-1154 | both, for the order request, the match, the order detail, the snapshot and the open orders response |
| WireIO.Writer.WriteMessage | web/gen/clob.ts:570-596 | the field-by-field writer with fork and join appends exactly the message's bytes |
| WireIO.Reader.ReadMessage | web/gen/clob.ts:815-834 | the position loop reads what the specification's parse reads, and fails when it fails |
| PriceChart.LatestIsLatest | web/components/GraphPriceV2.tsx:217-236 | the latest point is at or before the time, after all others, last in input order among ties |
| PriceChart.ResampledPoints | web/components/GraphPriceV2.tsx:217-236 | the chart has a point exactly at the grid times with a point at or before them, with its price |
| PriceChart.ResampledRises | web/components/GraphPriceV2.tsx:217-236 | its times rise strictly, so each grid time occurs at most once |
| PriceChart.BucketPoints | web/components/GraphPriceV2.tsx:217-236 | the two-pointer pass gives that chart |
| PriceChart.MakeChunks | web/components/GraphPriceV2.tsx:337-341 | the loop pushes the specified chunks |
| PriceChart.ChunksTile | web/components/GraphPriceV2.tsx:337-341 | the chunks tile the window without gap or overlap, all but the last as long as the span, that one no longer |
| WorkerPool.PoolCompletes | web/components/GraphPriceV2.tsx:346-370 | under every interleaving each chunk is claimed once and tried one to three times, and is answered unless all three failed |
| WorkerPool.StopsAtFirstSuccess | web/components/GraphPriceV2.tsx:352-362 | a chunk with a result is not requested again |
| WorkerPool.ResultsAreAnswers | web/components/GraphPriceV2.tsx:349-361 | a chunk's result is a value if and only if that value answered a request for that chunk |
| WorkerPool.SchedulesEnd | web/components/GraphPriceV2.tsx:348-368 | every schedule ends, within seven steps a chunk and one a worker |

## Left out

- Publication that fails five times: the model loses the fill as the code does; the later repair from settled state is the API's, which is not part of this model.
- Matching.Book.Add: says nothing of the book when a fill's search overflows (the program panics or loops there), nor of orders outside `Orders.Order`, whose collateral filled plus shares remaining exceeds 64 bits; no order in a consistent fill state is one.
- The string work of `same_trader`: account and address are compared in canonical form.
- `to_lowercase` on market ids: modelled for ASCII letters, which is all a UUID has.
- The float price and the 0.5 default of the price update, and `get_tv_pending_units`: display values.
- `get_orders_for_user`, the gRPC handlers and streams, start-up and the restart call: wrappers around the core.
- JSON decoding of deliveries: a message that does not decode is acknowledged and changes nothing.
- Order fields the engine does not read (`net`, `sig`, `public_key`, `key_type`, `chain_id`, `verifying_contract`): carried by the codec only.
- Codec: text is its UTF-8 bytes; unknown fields are skipped and not retained; the generated `switch` and `if`s are one loop over each message's table of fields.
- Chart: times are whole milliseconds and prices reals; responses are opaque values; the seed request and the flattening of the results are not modelled.
- React components, the wallet and contract scripts and the Go API: user interface and foreign calls.
