# A verified model of an Interactive Brokers client

This project models the stateful core and the wire codec of a Go client for Interactive
Brokers' TWS and Gateway, and proves what they promise: over every run of a state machine, over
every interleaving of its threads, or over every input of a codec.

`dafny verify dfyconfig.toml` checks everything.

## What is modelled

| files | part of the client |
|---|---|
| `Throttle` | the sliding-window rate limiter: an array pruned in place, against the whole history of admissions |
| `OrderBook`, `FillConservation`, `IndexAgreement`, `LogRefinement`, `OrderHistory`, `OrderManager` | the order, execution, commission and completion handlers over trades that two indexes share |
| `Tickers`, `MarketState` | subscription, tick delivery in batches, cancellation |
| `ReqIDs`, `RequestProtocol`, `RequestKeys`, `RequestRuns`, `RequestMap` | request IDs and the request map, run by many threads in any interleaving |
| `Results`, `ResultManager` | partial results gathered per request and delivered when it ends |
| `ReadLoop`, `Client` | the reader of a connection: version reply, handshake, batches |
| `Wire`, `Decimals`, `Framing`, `Connection` | field encoding, numerals, message building and splitting, length framing |
| `FieldReader`, `Blocks`, `Conditions`, `BlockCodec` | typed reads, and the variable-length blocks that placing an order writes and an openOrder message reads |
| `Events`, `EventSource` | subscribers of an event: callbacks, bounded channels, single values |
| `ContractKey` | the key of a contract: sort, then hash in wrapping 64-bit arithmetic |

Where the client changes things step by step there are two layers.  A value (`Book`, `Market`,
`Sys`, `State`, or an admission history) says what the state is, one function per handler or
atomic step says what becomes of it, and the theorems are about runs of these functions.  A
class with the client's own fields (maps to shared objects, arrays, loops over maps in any
order) is proved to do exactly that: each method ties its ghost value to the function.  What the
functions should come to is told a second time, by looking back over the messages or events of a
run (`OrderHistory`, `Received`, `Touched`, `Kept`, `Due`), and proved to be the same.
Concurrent parts are state machines whose steps are the lock sections, channel operations and
atomic operations of the source; a run is any interleaving of them.

## What came out

- Completed orders can split the two indexes.  A completedOrder message names no order ID, so the
  completion of an order that is not indexed yet is stored under (0, permID).  Over every run,
  for an order that openOrder and orderBound messages name by one key, status messages and
  executions then find two different trades exactly when a trade is stored at its key and the
  order is detached: completed before it was indexed, with another key than (0, permID), or
  overwritten at its key by the completion of another order (`LookupsPartIff`).  The completion
  may come after the order was placed (`LookupsCanPart`) or before (`LookupsCanPartLater`); only
  an openOrder or orderBound message that indexes the order, or a reset, mends it.
- Order IDs of client 0 and permIDs of orders placed by hand share one space of keys.  Two orders,
  each named by one key and not detached, have one trade exactly when the keys are equal
  (`SameTradeIff`); so an order of client 0 whose ID is the permID of a manual order takes over its
  trade (`ClientZeroTakesOver`), while two manual orders never share one (`ManualOrdersApart`).
- The hash of a BAG contract depends on what the unstable sort does with equal ConIDs, unless
  legs with equal ConIDs have ratios that are equal modulo 2^58; this is exact
  (`BagHashDeterminedIff`).  The hash ignores the action of a leg, although a comment beside it
  says otherwise; the model follows the code.
- Order conditions survive the wire exactly when each carries the type of its kind, as
  `CreateCondition` makes them, and holds no value that stands for "not set"
  (`ConditionsReadBackIff`).  The type is a private field, so a condition written as a struct
  literal outside its package carries type 0 and is not read back.
- An int64 equal to 2^31-1 is sent as an empty field and read as 0 (`Int64RoundTripIff`); ConIDs
  inside blocks are of that kind.
- Algorithm parameters without a strategy name, and condition flags without a condition, are not
  sent (`AlgoReadBackIff`, `ConditionsReadBackIff`).
- A message splits back into the fields it was built from exactly when no field holds a NUL
  (`BuiltMessageReadsBackIff`).
- With an interval of zero or less the limiter's slice may keep one expired entry until the next
  prune; the promise about windows still holds (`Tracks`, `EveryRunWithinLimit`).

## Model

| member | source | states |
|---|---|---|
| `Throttle.WithinLimitIffSpaced` | internal/throttle/throttle.go:35-53 | the promise "no window of the interval, wherever it opens, holds more than max admissions" is the same as: admissions max places apart are at least the interval apart |
| `Throttle.LiveIsSuffix` | internal/throttle/throttle.go:39-47 | what the prune keeps of a sorted history is its last entries, all later than the cutoff, and everything before is expired |
| `Throttle.AdmitsIffAllowed` | internal/throttle/throttle.go:76-90 | a lock section admits if and only if admitting now keeps every window within the limit |
| `Throttle.FullWindow` | internal/throttle/throttle.go:49-56 | in a full window the first kept entry plus the interval is the earliest time at which one more admission is allowed |
| `Throttle.EveryRunWithinLimit` | internal/throttle/throttle.go:35-53 | safety: after any sequence of lock sections of any callers at non-decreasing times, no window ever holds more than max admissions, and no admission is taken back |
| `Throttle.ScheduleRecurrence` | internal/throttle/throttle.go:35-63 | with callers in order and exact sleeps, the i-th admission is the latest of its arrival, the previous admission, and the admission max places before plus the interval |
| `Throttle.ScheduleFeasible` | internal/throttle/throttle.go:35-63 | that schedule is sorted, admits nobody before arrival and obeys the limit |
| `Throttle.ScheduleOptimal` | internal/throttle/throttle.go:35-63 | no schedule that obeys the limit admits any caller earlier |
| `Throttle.Limiter.constructor` | internal/throttle/throttle.go:20-26 | a new limiter has admitted nobody |
| `Throttle.Limiter.Prune` | internal/throttle/throttle.go:39-47 | compacts the array in place to exactly the entries after the cutoff, in order |
| `Throttle.Limiter.Record` | internal/throttle/throttle.go:50 | appends the admission within the capacity |
| `Throttle.Limiter.Attempt` | internal/throttle/throttle.go:36-57 | one lock section: admits exactly when fewer than max entries are live, and otherwise tells the earliest time one more is allowed; the array is the live part of the history |
| `Throttle.Limiter.TryNow` | internal/throttle/throttle.go:68-91 | answers true exactly when the admission keeps every window within the limit; a limit of 0 lets everything pass |
| `Throttle.Limiter.Wait` | internal/throttle/throttle.go:30-64 | with no other caller in between it sleeps at most once and is admitted at the earliest allowed time (plus how late the sleep ends) |
| `Throttle.Limiter.ServeInOrder` | internal/throttle/throttle.go:30-64 | callers served one after the other are admitted exactly at the times of the optimal schedule |
| `OrderBook.StepKeepsWF` | ib.go:578-947 | every handler leaves indexes and fill lists pointing at existing trades and fills, and creates at most one trade |
| `OrderManager.Trade.FilledQty` | order/trade.go:119-128 | the loop over the fill list adds up the shares, passing over fills of legs for a BAG trade |
| `OrderManager.OrderState.FindByKeyFirst` | ib.go:580-585 | the lookup of status messages: order key first, then a non-zero permID |
| `OrderManager.OrderState.FindByPermIDFirst` | ib.go:1869-1874 | the lookup of executions: permID first, then order key |
| `OrderManager.OrderState.HandleOrderStatus` | ib.go:565-627 | replaces the status of the trade found, logs a change, and fires the events the specification fires |
| `OrderManager.OrderState.HandleOpenOrder` | ib.go:914-939 | updates the stored trade or stores a new one, and indexes it under a non-zero permID |
| `OrderManager.OrderState.HandleExecDetails` | ib.go:1854-1898 | records a fill seen for the first time, attaches it to the trade found, and fires events only for live executions |
| `OrderManager.OrderState.Attach` | ib.go:1875-1886 | puts the fill on record and at the end of the trade's fill list, with a log entry |
| `OrderManager.OrderState.HandleCommissionReport` | ib.go:1913-1948 | stores the report in the recorded fill of its execution, unset amounts as 0 |
| `OrderManager.OrderState.HandleCompletedOrder` | ib.go:2377-2395 | makes a trade and stores it only under a permID not indexed before |
| `OrderManager.OrderState.HandleOrderBound` | ib.go:2406-2421 | gives the stored trade its permID and indexes it |
| `OrderManager.OrderState.PlaceOrder` | ib.go:1557-1774 | logs a modification or stores a new trade, and takes a new one back when sending fails |
| `OrderManager.OrderState.Reset` | internal/state/orders.go:23-27 | forgets the indexes |
| `FillConservation.FirstArrivalWins` | ib.go:1875-1876 | an execution ID is on record exactly when it was seen since the last reset, with the execution that arrived first, as its message brought it but for an order ID of 2^31-1, which becomes 0 |
| `FillConservation.EveryRunMatches` | ib.go:1866-1887 | over every run the recorded fills are the first arrivals, and each trade lists exactly those that belong to it by permID, API key or (0, permID), in order |
| `FillConservation.FirstArrivalIsListed` | ib.go:1854-1905 | where an execution goes, told from its message and for good: to the trade indexed under its permID; else to the one stored under (clientID, orderID) when it has a positive order ID, and under (0, permID) when the order ID is not positive or 2^31-1; else to none |
| `FillConservation.FillsArePartitioned` | ib.go:1868-1886 | a recorded fill is listed by the trade it was routed to, once, and by no other; one routed nowhere is listed nowhere |
| `FillConservation.FilledQtyIsWhatArrived` | order/trade.go:119-128 | the filled quantity of a trade is the sum over the first arrivals routed to it, only BAG fills for a BAG trade |
| `FillConservation.FillsMapEnumerates` | ib.go:1875-1876 | the Fills map holds each fill recorded since the last reset exactly once, under its execution ID (each fill ever, without a reset) |
| `FillConservation.FillsMapIsPartitioned` | ib.go:1868-1886 | so the trade lists partition the map: the fill of an entry is listed by the one trade it was routed to, or by none |
| `FillConservation.SharesAreConserved` | ib.go:1866-1887 | all shares that ever arrived are listed by some trade or were routed nowhere |
| `FillConservation.ReplayChangesNothing` | ib.go:1875-1892 | a replayed execution changes nothing but the events it fires |
| `FillConservation.CommissionChangesNoQuantity` | ib.go:1931-1941 | a commission report changes the recorded fill of its execution and no quantity, log or index |
| `IndexAgreement.EveryRunConsistent` | ib.go:914-935 | if openOrder and orderBound messages name each permID by one key, then over every run, completions included, the trade indexed under a permID that is not detached is the one stored at its key, and both lookups find it |
| `IndexAgreement.LookupsPartIff` | ib.go:1866-1874 | over every run: the key-first lookup of status messages and the permID-first lookup of executions find different trades if and only if the order is detached (completed before it was indexed under another key than (0, permID), or overwritten by the completion of another order) and a trade is stored at its key |
| `IndexAgreement.LookupsAgreeIff` | ib.go:1866-1874 | when no order is named by the key of another one's completion: the two lookups agree unless the message that last indexed the order was its completion, its key is an API key, and a trade is stored there |
| `IndexAgreement.LookupsPartIffByCompletion` | ib.go:2380-2387 | the same for one order, as long as the completion of no other is stored over its key |
| `IndexAgreement.EveryRunTold` | ib.go:2380-2387 | the invariant behind it: what being detached, a predicate of the messages, says of the two indexes |
| `IndexAgreement.LookupsCanPart` | ib.go:2380-2387 | a run in which they part: an order is placed and then completed before any openOrder |
| `IndexAgreement.LookupsCanPartLater` | ib.go:1576-1595 | a run in which they part later: the completion comes first, and the lookups agree until the order is placed |
| `IndexAgreement.OpenOrderIsFiled` | ib.go:914-947 | an openOrder files its order under (0, permID) without a positive order ID and under (clientID, orderID) with one, indexes a permID other than 0 to the same trade, and disturbs no other key |
| `IndexAgreement.SameTradeIff` | ib.go:914-947 | two indexed orders, each named by one key and not detached, have one trade if and only if they are named by the same key |
| `IndexAgreement.ManualOrdersApart` | ib.go:941-947 | over every run orders placed by hand are stored under their own (0, permID), and two with different permIDs have different trades |
| `IndexAgreement.ClientZeroTakesOver` | ib.go:629-634 | a run in which an order of client 0 takes over the trade of a manual order whose permID is its order ID |
| `OrderHistory.EveryRunIndexes` | ib.go:578-585 | over every run, which trade is stored under a key and indexed under a permID is what looking back over the messages tells |
| `OrderHistory.EveryRunShows` | ib.go:587-612 | over every run each trade shows exactly what the messages that found it tell: order fields, status, fills and the whole log |
| `OrderHistory.EveryRunReports` | ib.go:1913-1935 | a fill carries the last commission reported for it, with an unset P&L and an unset yield as 0, however often its execution is replayed |
| `OrderHistory.EveryRunFires` | ib.go:614-624 | over every run exactly the events that the messages tell fire, with their trades and fills, in order; fills of executions that a request waits for fire none |
| `LogRefinement.LogRefinesStatuses` | ib.go:587-612 | a trade shows the last status received for it, every field as received, or else the blank one it started with; the log entries without a message are the statuses received, repeats dropped (after the PendingSubmit of a placed trade), whatever fills and modifications are logged in between, and the last entry shows the current status |
| `LogRefinement.CompletionFiresOncePerChange` | ib.go:614-623 | FilledEvent and CancelledEvent fire exactly once per change of the trade to that status |
| `LogRefinement.OldTradeStep` | ib.go:587-612 | a message changes status and log of an existing trade only as a received status, a fill or a modification |
| `Tickers.TicksAreConserved` | ib.go:90-105 | for every ticker and run, the tick lists visible at its updates followed by its current list are exactly the ticks appended, in order |
| `Tickers.HeldTicksArePending` | internal/state/state.go:183-185 | every ticker made since the last reset that holds ticks is pending, subscribed or cancelled |
| `Tickers.BatchEndDeliversAll` | ib.go:90-105 | when a batch has been processed every tick ever appended to a ticker made since the last reset (to any ticker, without one) has been delivered, even if it was cancelled meanwhile |
| `Tickers.EveryRunRegistered` | ib.go:1508-1552 | over every run of subscriptions, failures and cancellations with new request IDs each ticker sits under the key and the request ID it was made for |
| `Tickers.RegistryIsOneToOne` | ib.go:1535-1552 | the request index is injective, a ticker has exactly one request ID, and cancelling leaves it in neither index |
| `Tickers.EveryRunIndexes` | ib.go:1508-1552 | over every run a ticker is found by key, and by request ID, exactly as the subscriptions, failures, cancellations and resets tell |
| `Tickers.EveryRunPending` | internal/state/state.go:183-185 | over every run exactly the tickers that a tick message of any kind reached since the last batch end or reset are pending |
| `Tickers.BatchEndFires` | ib.go:90-105 | a batch end fires the update of exactly those tickers, each once, with the ticks it then holds; nothing else fires any |
| `Tickers.RtVolumeTickIff` | ib.go:1137-1183 | the tick of an RT-volume value: the first part is its price, the second its size, and there is one exactly when both are numbers and there are six parts |
| `MarketState.FindRequest` | ib.go:1543-1549 | the loop over the request map finds an entry with the ticker, or there is none, in whatever order it runs |
| `MarketState.MarketData.Subscribe` | ib.go:1508-1517 | puts a new ticker in both indexes |
| `MarketState.MarketData.SubscribeFailed` | ib.go:1519-1525 | removes both entries when the request could not be sent |
| `MarketState.MarketData.CancelMktData` | ib.go:1535-1552 | in a registered state, for every iteration order, finds the ticker's one request ID and drops both entries |
| `MarketState.MarketData.HandleTick` | ib.go:1083-1117 | may append a tick and marks the ticker pending; unknown requests are ignored |
| `MarketState.MarketData.ProcessRtVolume` | ib.go:1137-1183 | appends a tick exactly when there are six parts, a price, and both price and size are numbers |
| `MarketState.MarketData.GetPendingTickers` | internal/state/state.go:172-180 | lists each pending ticker once, in some order |
| `MarketState.MarketData.ClearPendingTickers` | internal/state/market.go:33-40 | empties the tick lists of exactly the pending tickers, and the set |
| `MarketState.MarketData.OnDataProcessed` | ib.go:90-105 | fires every pending ticker with its list, then clears |
| `MarketState.MarketData.Reset` | internal/state/market.go:24-29 | forgets indexes and pending tickers |
| `ReqIDs.EveryRunInv` | protocol/client.go:180-195 | under any interleaving of GetReqID, UpdateReqID and synthetic IDs: counters stay apart, issued IDs increase, and each failed compare-and-swap used up one unit of the distance to its goal |
| `ReqIDs.IssuedIDsIncrease` | protocol/client.go:180-182 | issued IDs are non-negative and strictly increasing, whatever threads race |
| `ReqIDs.ReturnedUpdateIsHonoured` | protocol/client.go:184-195 | after UpdateReqID(min) returned every issued ID is at least min, and its loop failed at most min minus its first load times |
| `ReqIDs.SeenOrderIDNotReissued` | ib.go:937 | an order ID seen in openOrder is never issued again |
| `ReqIDs.IssuedIsNextOrAsked` | protocol/client.go:180-195 | each issued ID is 0, the one before it plus 1, or a value some UpdateReqID asked for, whatever threads race |
| `ReqIDs.KeysAreDistinct` | ib.go:180 | no two request keys, from the counter or synthetic, are equal |
| `RequestProtocol.ExecKeepsInv` | internal/state/request.go:26-85 | no step of any thread panics or blocks, and each keeps every channel where its place says |
| `RequestProtocol.NoRunPanicsOrBlocks` | internal/state/request.go:26-85 | under every interleaving no channel is sent to after close, closed twice or sent to twice, and no send blocks |
| `RequestProtocol.ExactlyOnePlace` | internal/state/request.go:26-85 | each channel is always in exactly one of four places: in the map under one ID, held by one thread, closed, or replaced by a later Start |
| `RequestProtocol.OrphanedIffOverwritten` | internal/state/request.go:26-32 | a channel is lost exactly when a Start under its ID replaced it |
| `RequestProtocol.FreshStartsNeverOverwrite` | internal/state/request.go:26-32 | when no ID is started twice no channel is replaced |
| `RequestKeys.NoRequestIsLost` | ib.go:144-145 | with keys drawn from the counter and the synthetic IDs, whatever threads race, every channel is in the map, held by a thread about to resolve it, or closed |
| `RequestRuns.CompletedResolvesOne` | internal/state/request.go:35-46 | an uninterrupted Complete resolves the pending channel with the result and touches nothing else |
| `RequestRuns.DrainResolvesPending` | internal/state/request.go:75-86 | an uninterrupted DrainAll resolves exactly the pending channels, in whatever order it meets them |
| `RequestRuns.CancelClosesOne` | internal/state/request.go:49-57 | Cancel closes the pending channel without a result and touches nothing else |
| `RequestMap.RequestMap.Start` | internal/state/request.go:26-32 | a fresh channel pending under the ID |
| `RequestMap.RequestMap.Complete` | internal/state/request.go:35-46 | is the steps take, send, close of the protocol; the pending channel then holds the result and is closed; without one nothing changes |
| `RequestMap.RequestMap.Cancel` | internal/state/request.go:49-57 | closes the pending channel without a result |
| `RequestMap.RequestMap.Has` | internal/state/request.go:60-65 | tells whether a request is pending |
| `RequestMap.RequestMap.Len` | internal/state/request.go:68-72 | tells how many are |
| `RequestMap.RequestMap.RangeOrder` | internal/state/request.go:82-85 | a loop over the map meets each key once, in any order |
| `RequestMap.RequestMap.DrainAll` | internal/state/request.go:75-86 | is the steps of the protocol for one thread; every pending channel then holds the error and is closed |
| `Results.EveryRunRecords` | internal/state/state.go:85-95 | whatever else is in flight, exactly the items appended for an ID since its last start, in order, are recorded for it; none after an end or a reset |
| `Results.StrayItemChangesNothing` | internal/state/state.go:85-89 | an item for a request never started or already ended changes nothing |
| `Results.EveryRunAwaits` | internal/state/request.go:26-57 | the pending channel of an ID is the one its last unsettled start made |
| `Results.FatesAreFinal` | internal/state/request.go:35-57 | what a channel delivered, or that it was cancelled, never changes |
| `Results.ExactDelivery` | internal/state/state.go:60-82 | the reader of a request gets, once and for ever, the value its end gives or else precisely the items appended for its own ID since its start, in order |
| `Results.CutShort` | internal/state/request.go:49-86 | the reader of a request that is cancelled learns that, and one that a drain finds waiting gets its error, for ever |
| `Results.EveryRunContracts` | internal/state/state.go:60-82 | the contract on record for an ID is the last one given since its request ended |
| `Results.SettledByItsOwn` | internal/state/state.go:71-82 | nothing settles a channel but the end or cancellation of the very request whose reader waits on it, or a drain |
| `ResultManager.CompleteAgrees` | internal/state/state.go:71-82 | settling a request in the specification is an uninterrupted Complete of the concurrent protocol |
| `ResultManager.DrainAgrees` | ib.go:78 | draining in the specification is an uninterrupted DrainAll of the concurrent protocol |
| `ResultManager.Manager.StartReq` | internal/state/state.go:60-68 | starts recording and returns a fresh channel |
| `ResultManager.Manager.AppendResult` | internal/state/state.go:85-95 | appends to what is recorded, or ignores the item |
| `ResultManager.Manager.EndReq` | internal/state/state.go:71-82 | delivers the given value or else what was recorded, and forgets it |
| `ResultManager.Manager.CancelReq` | internal/state/request.go:49-57 | closes the reader's channel and leaves the record |
| `ResultManager.Manager.DrainReqs` | ib.go:78 | delivers the error to every pending reader |
| `ResultManager.Manager.Reset` | internal/state/state.go:188-199 | forgets the records and leaves the pending requests |
| `ReadLoop.EveryRunBatches` | protocol/client.go:289-320 | the hooks are called as (Arrived Message+ Processed)*, only the last batch unfinished, and just when the last frame handed over left bytes waiting |
| `ReadLoop.EveryRunDispatches` | protocol/client.go:229-312 | every frame but the version reply reaches the handler exactly once, in order, up to a reply the loop ends on; the version is the one announced |
| `ReadLoop.VersionIsSetOnce` | protocol/client.go:241-260 | once set, the server version is at least 157 and never changes |
| `ReadLoop.EveryRunReady` | protocol/client.go:262-287 | OnReady is called exactly once, at the first frame by which a valid ID and a non-empty account list are known |
| `ReadLoop.HeardIDsAreHonoured` | protocol/client.go:268-271 | from a valid ID heard before the client was ready, the next request ID is never below it |
| `ReadLoop.EveryRunNextID` | protocol/client.go:262-287 | the next request ID is exactly the highest of the first one and the valid IDs heard before the client was ready |
| `ReadLoop.GoodIffAcceptable` | protocol/client.go:241-260 | a version reply is accepted if and only if it is a decimal numeral from 157 up that 64 bits hold, and that is the version set |
| `ReadLoop.AccountsRoundTripIff` | protocol/client.go:324-333 | names joined by commas are read back, all and in order, if and only if each is not empty, holds no comma and has no white space at its ends |
| `ReadLoop.TrimSpaceMeans` | protocol/client.go:324-333 | trimming takes the white space off both ends and nothing else |
| `Client.Client.UpdateReqID` | protocol/client.go:184-195 | raises the next ID to the given one, never lowers it |
| `Client.Client.SplitAccounts` | protocol/client.go:324-333 | the comma-separated names, trimmed, without empty ones |
| `Client.Client.Snoop` | protocol/client.go:262-287 | learns the valid ID and the accounts until ready |
| `Client.Client.Dispatch` | protocol/client.go:289-320 | opens a batch if none is open, hands the message over, and closes the batch when nothing is waiting |
| `Client.Client.ReadAll` | protocol/client.go:228-321 | the loop over all frames is the run of the specification |
| `Wire.IntRoundTrip` | protocol/encoder.go:24-30 | every int64 is recovered from its decimal text |
| `Decimals.NumeralParses` | protocol/field.go:35-42 | every decimal numeral, with a sign or none and however long, is read as the number it means by place value, or the nearest that 64 bits hold |
| `Decimals.OtherTextParses` | protocol/field.go:35-42 | any other text is read as 0, unless digits beyond 64 bits come before what spoils it |
| `Decimals.PrintedIsShortest` | protocol/encoder.go:24-30 | what is printed for an int64 is its numeral, without plus sign or leading zeros |
| `Wire.Int64RoundTripIff` | protocol/encoder.go:26-30 | an int64 is read back if and only if it is not 2^31-1, which is sent empty and read as 0 |
| `Wire.FloatRoundTripIff` | protocol/encoder.go:31-38 | a float, taken as its text, is read back if and only if it is set; unset is sent empty and read as 0, infinity as "Infinite" |
| `Wire.BoolRoundTrip` | protocol/field.go:58-61 | every bool is read back, and no other text but "true" is read as true |
| `Wire.MessageRoundTripIff` | protocol/connection.go:137-142 | a message splits into exactly the wire fields it was built from if and only if none holds a NUL |
| `Wire.FieldsRoundTripIff` | protocol/connection.go:137-142 | conversely, rebuilding a message from its fields gives it back if and only if it is empty or ends in NUL |
| `Wire.BuiltMessageReadsBackIff` | protocol/encoder.go:79-91 | a built message is split back into the encoded fields, a contract as 12, empty ones kept, if and only if no field's text holds a NUL |
| `Wire.EncodeTags` | protocol/encoder.go:44-52 | the loop over tag-value pairs; its text is taken apart into the same pairs exactly when no separator misleads |
| `Wire.TagsRoundTripIff` | protocol/encoder.go:44-52 | tags and values are read back from their text if and only if no tag holds an equals sign and none of both a semicolon |
| `Wire.EncodeField` | protocol/encoder.go:18-56 | the switch writes a text that the typed reads take back to the field, empty just for what is not set, with a NUL only if the field holds one |
| `Wire.BuildMessage` | protocol/encoder.go:79-91 | every field, contracts as their 12, each ended by a NUL; split back into its fields exactly when all are clean, and then each contract has its 12 fields at their places behind the fields before it |
| `Wire.ContractAmongSlots` | protocol/encoder.go:59-75 | the wire fields of a contract, by place: ConID, symbol, type, date, strike, right, multiplier, exchange, primary exchange, currency, local symbol, trading class |
| `Framing.HeaderRoundTrip` | protocol/connection.go:90-91 | a length below 2^32 is recovered from its 4 bytes |
| `Framing.FrameRoundTripIff` | protocol/connection.go:84-132 | a frame is read back, leaving what follows, if and only if its payload is of 1 byte to 10 MiB |
| `Framing.HeaderDecides` | protocol/connection.go:107-132 | what a header leads to: an error for length 0 and above 10 MiB, else the next bytes if they are there, else the end of the input |
| `Framing.ReadIsFramed` | protocol/connection.go:114-132 | whatever is read was framed: payload and rest determine the bytes |
| `Framing.StreamRoundTripIff` | protocol/connection.go:84-132 | payloads framed one after the other are read back as exactly that sequence with nothing left over, if and only if each is of 1 byte to 10 MiB |
| `Connection.ReadHasFields` | protocol/connection.go:137-142 | a message that is read has at least one field |
| `Connection.ConversationRoundTrip` | protocol/connection.go:84-145 | messages of NUL-free fields, built, framed and sent one after the other, arrive as exactly that sequence of split messages |
| `Connection.Connection.PutUint32` | protocol/connection.go:90-91 | the four bytes written by shifts are the big-endian header |
| `Connection.Connection.SendMessage` | protocol/connection.go:84-103 | appends the frame and counts it; without a connection nothing |
| `Connection.Connection.ReadFull` | protocol/connection.go:116-130 | fills the buffer or fails at the end of the input |
| `Connection.Connection.ReadMessage` | protocol/connection.go:107-145 | reads one message, or reports the end, a zero length or a length above 10 MiB |
| `FieldReader.FieldReader.ReadString` | protocol/field.go:25-32 | the next field, or the empty one past the end, where the cursor stays |
| `FieldReader.FieldReader.ReadInt` | protocol/field.go:35-42 | the next field as an int64, 0 when empty or no number |
| `FieldReader.FieldReader.ReadFloat` | protocol/field.go:45-55 | the next field as a float, 0 when empty |
| `FieldReader.FieldReader.ReadBool` | protocol/field.go:58-61 | the next field as a bool |
| `FieldReader.FieldReader.ReadIntList` | protocol/field.go:64-70 | the next n fields as int64s |
| `FieldReader.FieldReader.Skip` | protocol/field.go:73-78 | advances, at most to the end |
| `FieldReader.PastTheEnd` | protocol/field.go:25-61 | past the end every field reads as empty, 0 or false |
| `Blocks.BlockInMessage` | ib.go:1598-1730 | a block stands in a message right after the wire fields of what comes before it |
| `Blocks.LegReadBackIff` | ib.go:738-747 | a combo leg is read back from its 8 fields if and only if its ConID is set |
| `Blocks.ComboReadBackIff` | ib.go:734-771 | the reader stops exactly at the end of the combo block, and reads the same legs, prices and parameters if and only if all ConIDs and prices are set |
| `Blocks.NoCountNoList` | ib.go:734-771 | a count that is no number, zero or negative means an empty list |
| `Blocks.DeltaNeutralReadBackIff` | ib.go:803-811 | the same for the delta-neutral contract |
| `Blocks.AlgoReadBackIff` | ib.go:813-826 | the same for the algorithm: if and only if it names a strategy or has no parameters |
| `Conditions.CreatedHasItsKind` | order/condition.go:11-28 | a condition is created for the types 1 and 3 to 7 and no other, and carries the type asked for, which is that of its kind |
| `Conditions.FieldsReadBackIff` | ib.go:949-984 | the fields of a condition are read back into one of its kind if and only if none stands for "not set" |
| `Conditions.ConditionReadBackIff` | ib.go:864-868 | one turn of the loop reads a condition back if and only if it is faithful |
| `Conditions.UnknownTypeIsPassedOver` | ib.go:862-869 | a type nobody knows takes up one field and adds nothing |
| `Conditions.UnfaithfulSpoils` | ib.go:862-869 | the first condition that is not faithful spoils the list for good |
| `Conditions.ConditionsReadBackIff` | ib.go:858-872 | emitted conditions are read back the same if and only if each is faithful and no flag stands without a condition |
| `BlockCodec.AppendCombo` | ib.go:1611-1629 | appends the combo block for a BAG order, and nothing otherwise |
| `BlockCodec.AppendDeltaNeutral` | ib.go:1683-1688 | appends the delta-neutral block |
| `BlockCodec.AppendAlgo` | ib.go:1690-1696 | appends the algorithm block |
| `BlockCodec.AppendConditions` | ib.go:1709-1715 | appends the conditions |
| `BlockCodec.ReadCombo` | ib.go:734-771 | the loops over legs, prices and parameters read the block at the cursor and leave the cursor behind it |
| `BlockCodec.ReadDeltaNeutral` | ib.go:803-811 | reads the delta-neutral block |
| `BlockCodec.ReadAlgo` | ib.go:813-826 | reads the algorithm block |
| `BlockCodec.ReadInto` | ib.go:949-984 | overwrites every field of a condition but its type |
| `BlockCodec.ReadConditions` | ib.go:858-872 | reads the conditions, passing over unknown types |
| `BlockCodec.ComboSurvivesTheWireIff` | ib.go:1611-1629 | built into any message and split again, a combo arrives unchanged if and only if all of it is set |
| `BlockCodec.DeltaNeutralSurvivesTheWireIff` | ib.go:1683-1688 | built into any message and split again, a delta-neutral contract arrives unchanged if and only if there is none or all of it is set |
| `BlockCodec.AlgoSurvivesTheWireIff` | ib.go:1690-1696 | built into any message and split again, an algorithm arrives unchanged if and only if it names a strategy or has no parameters |
| `BlockCodec.ConditionsSurviveTheWireIff` | ib.go:1709-1715 | built into any message and split again, conditions arrive unchanged if and only if they are faithful and no flag stands alone |
| `BlockCodec.ContractSurvivesTheWire` | protocol/encoder.go:59-91 | built into any message and split again, a contract is read back from the places of its 12 fields |
| `ContractKey.HashIsWrappedPoly` | contract/contract.go:91-95 | hashing with wrap-around at every step is wrapping the exact polynomial once |
| `ContractKey.BagHashInvariant` | contract/contract.go:81-97 | leg lists that are permutations of each other hash alike, whatever the sort does, when equal ConIDs have ratios equal modulo 2^58 |
| `ContractKey.SortShows` | contract/contract.go:86-88 | otherwise two results of the sort hash differently |
| `ContractKey.BagHashDeterminedIff` | contract/contract.go:81-97 | the hash does not depend on the unstable sort if and only if equal ConIDs have ratios equal modulo 2^58 |
| `ContractKey.SortSlice` | contract/contract.go:86-88 | sorts the array in place by ConID, equal ones in either order |
| `ContractKey.BagHash` | contract/contract.go:81-97 | the hash of some sorted arrangement of the legs, the same for all when it is determined |
| `ContractKey.Key` | contract/contract.go:71-79 | the hash for BAG, the negated ConID for CONTFUT (the least int64 is its own negative), else the ConID |
| `ContractKey.NegatedIs` | contract/contract.go:71-79 | negating in 64 bits gives the opposite number, but for the least one, and twice gives the number back |
| `ReadLoop.NoAccountsIff` | protocol/client.go:324-333 | a list names no account if and only if it holds nothing but commas, spaces, tabs and line, form or page breaks |
| `Events.EveryRunInv` | event/event.go:26-101 | no sequence of calls panics: a subscribed channel is open and never over its capacity, and every ID is subscribed at most once |
| `Events.EveryRunServes` | event/event.go:83-101 | each callback was called with exactly the values emitted while it was subscribed, in order; a Once channel got the first, however late its callback is unsubscribed; a channel got exactly those for which, counting what was received, it had room, in order, holds the rest, and is closed just when no longer subscribed |
| `Events.MissesNothingIff` | event/event.go:94-100 | a channel misses nothing if and only if no value emitted while it was subscribed found it full |
| `EventSource.Listener.Call` | event/event.go:66-78 | calls the callback; the one behind Once sends the first value, closes its channel and ignores the rest |
| `EventSource.Listener.Offer` | event/event.go:94-100 | adds the value, or drops it when the channel is full |
| `EventSource.Event.Subscribe` | event/event.go:26-32 | hands out the next ID and appends to the list of its kind |
| `EventSource.Event.Find` | event/event.go:38-49 | the first entry with the ID |
| `EventSource.Event.Unsubscribe` | event/event.go:35-51 | searches callbacks, then channels, cuts the entry out of its list, and closes a channel |
| `EventSource.Event.Emit` | event/event.go:83-101 | tells every callback, then every channel, each once |

## Left out

- Connection.Connection.SendMessage: write errors are left out; a write succeeds while connected.
- Sockets, deadlines and logging: the input is a byte sequence that ends.
- Throttle.Limiter.Wait: no other caller takes a lock section between its attempts; `EveryRunWithinLimit` admits the lock sections of any callers in any order.
- Throttle.Limiter.ServeInOrder: callers run strictly one after the other, which is the order the schedule is optimal for.
- Timers and the scheduler: the clock is a parameter that never goes back.
- Unlocked accesses: `Results`, `PendingTickers` and the trade logs are touched without a lock, and each handler call is one step here.
- OrderManager.OrderState.PlaceOrder: one step; an openOrder or status message handled between its lock sections is not modelled; nor are the sending itself and the ID it may draw, which are parameters.
- The order object handed to `PlaceOrder` is the caller's own; changes the caller makes to it later are not modelled.
- Width of IDs and counters: request IDs, channel numbers and byte counters are unbounded, except where a field is read from the wire or hashed.
- Quantities are exact reals.
- Wire.FloatRoundTripIff: a wire float is its text, so float printing and parsing are each other's inverse by construction.
- FieldReader.FieldReader.ReadFloat: text that is no number is kept where the source yields 0, because a float is its text.
- MarketState.MarketData.HandleTick: the other fields of a ticker (prices, sizes, ratios) that tick handlers set beside the tick list are left out.
- MarketState.MarketData.ProcessRtVolume: the volume, VWAP, time and last-price fields are left out.
- MarketState.MarketData.ClearPendingTickers: the other two lists of a ticker, which are cleared alike, are left out.
- MarketState.MarketData.OnDataProcessed: time stamps and the two events for all tickers at once are left out.
- MarketState.MarketData.Reset: the map of subscribers is left out.
- Allocation of a list whose count field is huge or larger than what is left: the source would try to allocate it, the model reads empty fields.
- `fmt`-formatted fields of other types than the ones listed in `Field`.
- Client.Client.SplitAccounts: trims the ASCII kinds of white space, where the source also trims the other kinds Unicode has.
- ReadLoop.NoAccountsIff: white space is the ASCII kinds, for the same reason.
- The full layouts of openOrder, completedOrder and contract details, which differ between what is sent and what is received; only the shared blocks are modelled.
- Races on an event: `Emit` copies the lists and sends outside the lock, so a channel closed in between could be sent to; `Events` runs one call after the other, with the unsubscription that `Once` starts in the background at any later time; and no receiver waits on a channel, so one without a buffer gets nothing.  The handlers' own emissions are entries of a list and are not connected to it.
- Reconnection, heartbeats, request wrappers, tick-name tables, account state and read-only getters.
- `sort.Slice` is any sort by ConID: the insertion sort here leaves the order of equal ConIDs open.
- Client.Client.UpdateReqID: the loop is one attempt, because no other thread runs in that class; `ReqIDs` models the compare-and-swap races.
- Client.Client.ReadAll: the frames and whether more bytes were waiting after each are given; a handler's panic, which the source recovers from, has no effect.
