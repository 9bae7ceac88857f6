# OZO, modelled and verified in Dafny

OZO is an asynchronous C++ client for PostgreSQL. This project models its hard core and proves what it promises, over
every input, every interleaving and every run. `dafny verify dfyconfig.toml` checks all of it.

The connection pool (`Storage`, `WaitQueues`, `Pools`, `PoolRuns`, `PoolSteps`, `PoolTheorems`, `PoolReuse`,
`PoolGrain`, `PoolHandover`). A fixed set of cells moves between three lists; requests that find no cell wait in a
queue threaded through an arrival list, a spare list and an expiry multimap, with one timer armed for the earliest.
The classes work step by step as the original does, and each method is proved to compute a closed form on values. On
top of these values stands a state machine of the pool with its handles, completions in flight, timers and clock, in
which `get` happens as a whole or in its two halves, as it does under a real lock. One invariant is shown to be kept
by every event, and the theorems about whole runs follow: cells and requests are conserved, every used cell has
exactly one owner, the queue is served in order, granted values are fresh, a value that comes back good is granted
again, and a connection dropped bad is never seen again. That nobody waits beside an idle cell, or in a pool that is
shut down, holds for whole `get`s and is false of the halves; when it fails is characterised exactly. A return that
serves the queue has two halves as well; runs with these are shown to refine runs with whole returns.

A request (`Requests`, `RequestAnswers`, `Deadlines`). Sending the query and reading its result are two operations
that share a query state and one handler. libpq's answers and the ends of waits are arbitrary. The handler is never
forgotten and never called after an error, and what it is called with is read off the answers alone: success exactly
when the first result was none, or was good and processed without throwing, and otherwise the code of the answer that
failed. That it is called once is false of the code in one case, which is characterised exactly: a success reported
while the query is still being sent, followed by a failure to send. The time-limit wrapper and its dual for `cancel`
are modelled as well, and the product of a whole request with its wrapper. The wrapper is used after it gave its
context up exactly when a success was reported while the query was still being sent, and then sending failed or had to
wait for the socket once more.

The binary format (`Endian`, `Intervals`, `Codec`, `CodecTheorems`, `CodecFormat`, `CodecFaults`, `CodecTruncation`,
`CodecSizes`, `CodecStreams`, `Layout`, `BinaryQueries`). Types are descriptors: integers, booleans, intervals, text,
arrays and composites, nested without bound, each nullable or not. Encoding, announced size and decoding are
functions; the stream classes, with their buffer and cursor, are proved to refine them. Decoding undoes encoding for
every value, and no encoding that breaks off is taken for a value. The format is stated once more as a relation
between bytes and values, and on arbitrary bytes decoding accepts exactly its forms and rejects everything else for
its first fault. Announced lengths are real exactly when no array of static-size elements mixes nulls with values, and
otherwise off by a sum that is computed. Query parameters are laid out in one buffer and cut out again; they all
arrive as given exactly when no length is off and none is an empty string, which arrives as null.

Failover (`Failover`, `FailoverSteps`). Retry and role-based failover as one machine over the outcomes of tries, with
the shared time budget, the closing guard and the handler. Retry closes a failed connection before the next try
starts, role-based failover right after. Every try has an equal share of the time left, to within a tick for each try
remaining.

Query files (`QueryText`, `QueryLines`, `QueryRepository`, `QueryDefinitions`, `QueryFile`). The three grammars with
their NUL skipper, the line visitor, the checks and the repository. Parsing and printing are inverse to each other on
text, lines, headers and whole files. What a file defines and what a stored text consists of are stated by lines and
by pieces, with every error exactly when.

Where the code and its documentation differ, the model follows the code:

- The documentation of `tries_left` gives 0 for the last try (include/ozo/failover/role_based.h:514-518); the code
  gives 1, and the time share of the last try depends on it.
- The note on intervals promises the nearest valid value on overflow (include/ozo/ext/std/duration.h:23-24); next to
  the two ends of the range the code wraps around instead. `Intervals.SaturatesExactlyWhen` says exactly where.
- The documentation of `recv_impl` announces `std::range_error` for a size that does not match
  (include/ozo/io/recv.h:55-57); the code reports `bad_object_size`.

Signed 64-bit arithmetic on intervals is taken as two's complement with wrap-around, also where the C++ standard
leaves it undefined.

## Model

| member | source | states |
|---|---|---|
| TimeTraits.Add | contrib/resource_pool/include/yamail/resource_pool/time_traits.hpp:20-32 | saturating `add`: the exact sum clamped to the 64-bit range, with no intermediate outside it |
| Storage.PartitionMeaning | contrib/resource_pool/include/yamail/resource_pool/detail/storage.hpp:50-56 | a valid store's three lists are duplicate-free, pairwise disjoint and hold every cell |
| Storage.CellStorage.constructor | contrib/resource_pool/include/yamail/resource_pool/detail/storage.hpp:65-69 | all cells start empty and wasted |
| Storage.CellStorage.Generated | contrib/resource_pool/include/yamail/resource_pool/detail/storage.hpp:73-80 | all cells start available, each with a generated value and the earlier of idle and lifespan deadline |
| Storage.GeneratedMeaning | contrib/resource_pool/include/yamail/resource_pool/detail/storage.hpp:73-80 | in cell fields: each generated value is in its own idle cell, unmarked, with the smaller of the two clamped sums as its drop time |
| Storage.CellStorage.LeaseCell | contrib/resource_pool/include/yamail/resource_pool/detail/storage.hpp:103-121 | the loop and the fallback produce the closed form `Lease`: expired idle cells emptied and retired, the first live one or else the first wasted one moved to used |
| Storage.LeaseKeepsValid | contrib/resource_pool/include/yamail/resource_pool/detail/storage.hpp:103-121 | leasing keeps the partition, wasted cells empty and available cells unmarked and within lifespan |
| Storage.LeaseFailsOnlyWhenAllUsed | contrib/resource_pool/include/yamail/resource_pool/detail/storage.hpp:103-121 | a lease fails if and only if every cell is in use |
| Storage.LeaseDelivers | contrib/resource_pool/include/yamail/resource_pool/detail/storage.hpp:103-121 | the leased cell was not in use before and is now; a value delivered was idle, before its drop time and within its lifespan, and unmarked |
| Storage.LiveIdleIsLeased | contrib/resource_pool/include/yamail/resource_pool/detail/storage.hpp:103-114 | with a live idle cell: the first such cell is leased with its content untouched, the expired ones before it are emptied and wasted in order, the ones after it stay idle, every other cell is as it was |
| Storage.WastedIsLeased | contrib/resource_pool/include/yamail/resource_pool/detail/storage.hpp:113-119 | with no live idle cell: all idle ones expire, and the cell longest wasted is leased, empty and unmarked |
| Storage.CellStorage.Recycle | contrib/resource_pool/include/yamail/resource_pool/detail/storage.hpp:124-135 | a marked or overaged cell is wasted, any other goes to the idle list with its new drop time |
| Storage.RecycleKeepsValid | contrib/resource_pool/include/yamail/resource_pool/detail/storage.hpp:124-135 | recycling keeps the store valid |
| Storage.RecycleMeaning | contrib/resource_pool/include/yamail/resource_pool/detail/storage.hpp:124-135 | in cell fields: an unmarked value with life left becomes the last idle cell, unchanged, with the smaller of the two clamped sums as its drop time; any other is destroyed and its cell wasted; no other cell changes |
| Storage.CellStorage.Waste | contrib/resource_pool/include/yamail/resource_pool/detail/storage.hpp:138-141 | the cell is emptied and moved from used to wasted, all else unchanged |
| Storage.WasteKeepsValid | contrib/resource_pool/include/yamail/resource_pool/detail/storage.hpp:138-141 | wasting keeps the store valid |
| Storage.WasteMeaning | contrib/resource_pool/include/yamail/resource_pool/detail/storage.hpp:138-141 | in cell fields: the cell is empty and the last wasted one; no other cell changes |
| Storage.CellStorage.Usable | contrib/resource_pool/include/yamail/resource_pool/detail/storage.hpp:144-154 | `is_valid`: unmarked and lifespan not over |
| Storage.CellStorage.Invalidate | contrib/resource_pool/include/yamail/resource_pool/detail/storage.hpp:157-165 | idle values dropped, their cells wasted in order, cells in use marked for disposal |
| Storage.InvalidateKeepsValid | contrib/resource_pool/include/yamail/resource_pool/detail/storage.hpp:157-165 | invalidation keeps the store valid |
| Storage.CellStorage.Reset | contrib/resource_pool/include/yamail/resource_pool/handle.hpp:115-120 | a new value and reset time in the held cell, nothing else changes |
| WaitQueues.WaitQueue.constructor | contrib/resource_pool/include/yamail/resource_pool/async/detail/queue.hpp:74 | an empty queue with no timers |
| WaitQueues.WaitQueue.Push | contrib/resource_pool/include/yamail/resource_pool/async/detail/queue.hpp:145-163 | refuses when full, else appends in arrival order with the saturated expiry and re-arms the timer; the intrusive lists and the multimap stay consistent |
| WaitQueues.WaitQueue.Pop | contrib/resource_pool/include/yamail/resource_pool/async/detail/queue.hpp:166-178 | takes the first arrival out of both structures and re-arms; nothing on an empty queue |
| WaitQueues.WaitQueue.Expire | contrib/resource_pool/include/yamail/resource_pool/async/detail/queue.hpp:181-195 | removes and posts exactly the requests with expiry at or before the fired time, in expiry order, and keeps the others in arrival order |
| WaitQueues.WaitQueue.UpdateTimer | contrib/resource_pool/include/yamail/resource_pool/async/detail/queue.hpp:198-225 | a wait armed at the minimum expiry on that request's own context; no timers when nobody waits |
| WaitQueues.RearmMeaning | contrib/resource_pool/include/yamail/resource_pool/async/detail/queue.hpp:198-225 | the wait is armed for the least expiry on the context of the first waiter to have it; every other timer is left as it was |
| WaitQueues.SizesAgree | contrib/resource_pool/include/yamail/resource_pool/async/detail/queue.hpp:126-136 | arrival list and expiry multimap always have the same size |
| WaitQueues.OwnEntry | contrib/resource_pool/include/yamail/resource_pool/async/detail/queue.hpp:155-160 | the entry a node refers to is its own: same node, same expiry |
| WaitQueues.HeadIsEarliest | contrib/resource_pool/include/yamail/resource_pool/async/detail/queue.hpp:205-207 | the first multimap entry belongs to the request that expires first, the earliest arrival among equals |
| WaitQueues.EnqueuedOk | contrib/resource_pool/include/yamail/resource_pool/async/detail/queue.hpp:150-160 | inserting keeps list, spare list and multimap consistent and appends exactly the new waiter |
| WaitQueues.DequeuedOk | contrib/resource_pool/include/yamail/resource_pool/async/detail/queue.hpp:171-175 | removing the head keeps them consistent and removes exactly that waiter |
| Pools.PoolImpl.constructor | contrib/resource_pool/include/yamail/resource_pool/async/detail/pool_impl.hpp:205-212 | an enabled pool with all cells wasted and an empty queue |
| Pools.PoolImpl.Generated | contrib/resource_pool/include/yamail/resource_pool/async/detail/pool_impl.hpp:214-223 | an enabled pool with every cell available, holding its generated value, and an empty queue |
| Pools.PoolImpl.Create | contrib/resource_pool/include/yamail/resource_pool/async/detail/pool_impl.hpp:406-411 | a capacity of zero is refused, any other gives a valid pool of that many cells |
| Pools.PoolImpl.AskCell | contrib/resource_pool/include/yamail/resource_pool/async/detail/pool_impl.hpp:339-369 | the first half of `get`, under the lock: disabled, leased, refused at once, or undecided |
| Pools.PoolImpl.JoinQueue | contrib/resource_pool/include/yamail/resource_pool/async/detail/pool_impl.hpp:370-379 | the second half, without the lock: queued or overflowed, whatever the pool has become |
| Pools.PoolImpl.GetCell | contrib/resource_pool/include/yamail/resource_pool/async/detail/pool_impl.hpp:336-380 | both halves with nothing between them, as with the stub lock |
| PoolRuns.HalvesMakeGet | contrib/resource_pool/include/yamail/resource_pool/async/detail/pool_impl.hpp:336-380 | in a run, the two halves with nothing between them are the whole `get` |
| Pools.PoolImpl.RecycleHeld | contrib/resource_pool/include/yamail/resource_pool/async/detail/pool_impl.hpp:306-319 | hands the cell to the first in the queue, emptied if no longer valid; recycles it when nobody waits |
| Pools.PoolImpl.WasteHeld | contrib/resource_pool/include/yamail/resource_pool/async/detail/pool_impl.hpp:322-332 | hands the emptied cell to the first in the queue; wastes it when nobody waits |
| Pools.PoolImpl.DisablePool | contrib/resource_pool/include/yamail/resource_pool/async/detail/pool_impl.hpp:383-397 | the pool is disabled and every waiting request refused once, in arrival order |
| Pools.Drain | contrib/resource_pool/include/yamail/resource_pool/async/detail/pool_impl.hpp:386-396 | the loop refuses exactly the waiting requests in order and ends with an empty queue and no timers |
| Pools.PoolImpl.InvalidatePool | contrib/resource_pool/include/yamail/resource_pool/async/detail/pool_impl.hpp:400-403 | invalidates the storage and nothing else |
| Pools.Handle.MoveFrom | contrib/resource_pool/include/yamail/resource_pool/handle.hpp:61-67 | the new handle holds what the old one held, the old one holds nothing |
| Pools.Handle.Assign | contrib/resource_pool/include/yamail/resource_pool/handle.hpp:77-87 | the old cell goes back once by the old strategy, the new one is taken over, the source holds nothing; also for assignment to itself |
| Pools.Handle.Return | contrib/resource_pool/include/yamail/resource_pool/handle.hpp:102-113 | gives the cell back exactly once; fails and changes nothing on an unusable handle |
| Pools.Handle.Reset | contrib/resource_pool/include/yamail/resource_pool/handle.hpp:115-120 | writes the held cell, fails on an unusable handle |
| Pools.Handle.Destroy | contrib/resource_pool/include/yamail/resource_pool/handle.hpp:70-74 | gives the cell back by the handle's strategy, does nothing on an unusable handle |
| PoolRuns.InitInv | contrib/resource_pool/include/yamail/resource_pool/async/detail/pool_impl.hpp:205-223 | where runs begin the invariant holds, with its strict part |
| PoolRuns.EmptyPoolInit | contrib/resource_pool/include/yamail/resource_pool/async/detail/pool_impl.hpp:205-212 | a pool whose cells are all wasted is where runs begin |
| PoolRuns.GeneratedPoolInit | contrib/resource_pool/include/yamail/resource_pool/async/detail/pool_impl.hpp:214-223 | so is a pool filled by a generator, with the history of its cells, for distinct values |
| PoolRuns.MakePool | contrib/resource_pool/include/yamail/resource_pool/async/detail/pool_impl.hpp:205-212 | the object the first constructor makes has such a state |
| PoolRuns.MakeGeneratedPool | contrib/resource_pool/include/yamail/resource_pool/async/detail/pool_impl.hpp:214-223 | the object the second constructor makes has such a state |
| PoolRuns.StepKeepsInv | contrib/resource_pool/include/yamail/resource_pool/async/detail/pool_impl.hpp:306-403 | every event (get, either half of get, delivery, return, move, destruction, reset, dropped connection, timer, time-out, invalidate, disable) keeps the run invariant |
| PoolRuns.StepKeepsStrict | contrib/resource_pool/include/yamail/resource_pool/async/detail/pool_impl.hpp:306-403 | every event but a half of `get` keeps that nobody waits beside an idle cell or in a disabled pool, and that grants are in order of arrival |
| PoolRuns.JoinKeepsInv | contrib/resource_pool/include/yamail/resource_pool/async/detail/pool_impl.hpp:370-379 | a request that joins the queue late keeps the run invariant |
| PoolRuns.ReturnKeepsInv | contrib/resource_pool/include/yamail/resource_pool/async/detail/pool_impl.hpp:306-332 | giving a cell back keeps it, with and without hand-over to a waiting request |
| PoolRuns.MoveKeepsInv | contrib/resource_pool/include/yamail/resource_pool/handle.hpp:61-87 | moving a handle keeps ownership one to one |
| PoolRuns.DropConnectionKeepsInv | include/ozo/impl/connection_pool.h:174-179 | destroying a pooled connection, then its handle, keeps the invariant |
| PoolRuns.TimeoutKeepsInv | contrib/resource_pool/include/yamail/resource_pool/async/detail/queue.hpp:181-195 | a time-out, even from a stale timer, keeps the invariant |
| PoolTheorems.CellsConserved | contrib/resource_pool/include/yamail/resource_pool/detail/storage.hpp:103-165 | after every run the three lists are disjoint, cover exactly the original cells, and wasted cells are empty |
| PoolTheorems.OwnedExactlyOnce | contrib/resource_pool/include/yamail/resource_pool/handle.hpp:60-113 | after every run each used cell belongs to exactly one completion in flight or live handle, and conversely |
| PoolTheorems.RequestsConserved | contrib/resource_pool/include/yamail/resource_pool/async/detail/pool_impl.hpp:306-397 | after every run, halves of `get` included, requests made = completions + waiting + about to join; none is completed twice, none both completed and waiting |
| PoolTheorems.QueueServedInOrder | contrib/resource_pool/include/yamail/resource_pool/async/detail/queue.hpp:145-195 | on every run, of two requests served from the queue the one that joined first is served first |
| PoolTheorems.GrantsInArrivalOrder | contrib/resource_pool/include/yamail/resource_pool/async/detail/pool_impl.hpp:306-380 | on every run of whole `get`s, of any two served requests the earlier made is served first |
| PoolTheorems.GrantsAreFreshTimeoutsAreDue | contrib/resource_pool/include/yamail/resource_pool/detail/storage.hpp:103-165 | on every run every value granted was set after the latest invalidation, is within its lifespan since it was set, and on the lease path within its idle time; no request times out early |
| PoolTheorems.FlightIsFreshUnlessMarked | contrib/resource_pool/include/yamail/resource_pool/detail/storage.hpp:156-165 | between grant and delivery, on every run: a value in flight was set after the latest invalidation if and only if its cell is not marked for disposal |
| PoolTheorems.WaitingMeansArmed | contrib/resource_pool/include/yamail/resource_pool/async/detail/queue.hpp:197-215 | on every run the queue is within capacity and, while somebody waits, a wait for the minimum expiry is armed or has fired |
| PoolTheorems.WaitingMeansAllUsed | contrib/resource_pool/include/yamail/resource_pool/async/detail/pool_impl.hpp:336-380 | on every run of whole `get`s, while somebody waits every cell is in use and the pool is enabled |
| PoolTheorems.DroppedNeverSeenAgain | include/ozo/impl/connection_pool.h:174-179 | a connection dropped bad or not idle is delivered to nobody on any continuation, and its handle owns nothing any more |
| PoolReuse.IdleIsReused | contrib/resource_pool/include/yamail/resource_pool/detail/storage.hpp:103-121 | on every run without invalidation in which everybody asks before the drop time of an idle value: it is granted, or it moves up a place with every call of `get` |
| PoolReuse.ReturnedIsReused | contrib/resource_pool/include/yamail/resource_pool/async/detail/pool_impl.hpp:306-319 | a value that comes back good to an empty queue (returned, or its handle or healthy connection ended) is granted again with that value, at the latest after as many calls of `get` as there were idle cells |
| PoolSteps.GetAnswers | contrib/resource_pool/include/yamail/resource_pool/async/detail/pool_impl.hpp:336-380 | which answer `get` gives: refused as disabled, granted a cell not in use, refused at once when it would not wait, refused on overflow, or last in the queue with the saturated expiry; exactly one of these, and when |
| PoolSteps.FirstWaiterIsServed | contrib/resource_pool/include/yamail/resource_pool/async/detail/pool_impl.hpp:306-332 | a cell that comes back goes to the longest waiter at once, with its value exactly when it came to be recycled, unmarked and with life left; nothing else changes |
| PoolSteps.NobodyIsServed | contrib/resource_pool/include/yamail/resource_pool/async/detail/pool_impl.hpp:306-332 | with nobody waiting it is the last idle cell with its value exactly then, and wasted and empty otherwise |
| PoolSteps.UnusableReturnsNothing | contrib/resource_pool/include/yamail/resource_pool/handle.hpp:101-113 | a handle without a cell gives nothing back |
| PoolSteps.EndsAsGranted | include/ozo/impl/connection_pool.h:173-179 | a handle ends by its strategy; a connection that is bad or not idle is wasted whatever its strategy, any other ends by it |
| PoolSteps.MoveTakesOver | contrib/resource_pool/include/yamail/resource_pool/handle.hpp:61-87 | a handle moved to has the cell and strategy of the other, which has none; the cell it had goes back by its own strategy |
| PoolSteps.DisableRefusesAll | contrib/resource_pool/include/yamail/resource_pool/async/detail/pool_impl.hpp:382-397 | closing the pool refuses everybody who waits, in order, as disabled, and touches no cell |
| PoolSteps.ResetMeaning | contrib/resource_pool/include/yamail/resource_pool/handle.hpp:115-120 | a new value and reset time in the held cell; its mark and drop time stay, and every other cell |
| PoolSteps.DueTimeOut | contrib/resource_pool/include/yamail/resource_pool/async/detail/queue.hpp:181-195 | a timer times out exactly the waiters due by its expiry and leaves exactly the others |
| PoolSteps.TimeoutsAreTold | contrib/resource_pool/include/yamail/resource_pool/async/detail/queue.hpp:181-195 | each of them is told, in order, and no cell is touched |
| PoolTheorems.RunExtends | contrib/resource_pool/include/yamail/resource_pool/async/detail/pool_impl.hpp:306-403 | a run only appends to the history, keeps the set of cells, and delivers nothing condemned before it |
| PoolGrain.IdleRun | contrib/resource_pool/include/yamail/resource_pool/async/detail/pool_impl.hpp:306-380 | on every run the idle cells grow by the cells that came back to an empty queue, less those leased |
| PoolGrain.LateJoinExactlyWhen | contrib/resource_pool/include/yamail/resource_pool/async/detail/pool_impl.hpp:360-373 | after any events between the halves of a `get`, somebody waits beside an idle cell if and only if more cells came back to an empty queue than were leased since its own lease failed |
| PoolGrain.LateJoinDisabledExactlyWhen | contrib/resource_pool/include/yamail/resource_pool/async/detail/pool_impl.hpp:360-397 | and somebody waits in a disabled pool if and only if `disable` was among these events |
| PoolGrain.LateJoinHappens | contrib/resource_pool/include/yamail/resource_pool/async/detail/pool_impl.hpp:360-373 | a run from a pool just made in which the first happens |
| PoolGrain.LateJoinDisabledHappens | contrib/resource_pool/include/yamail/resource_pool/async/detail/pool_impl.hpp:360-397 | a run from a pool just made in which the second happens |
| PoolHandover.HalvesMakeReturn | contrib/resource_pool/include/yamail/resource_pool/async/detail/pool_impl.hpp:306-332 | the half of a return under the lock and the half after it, with nothing between them, are the whole return |
| PoolHandover.FineRefinesCoarse | contrib/resource_pool/include/yamail/resource_pool/async/detail/pool_impl.hpp:306-332 | every run with returns in halves, anything between them, matches the run with whole returns: the pool is that one once the returns under way are finished, and the completions posted or due are the same |
| PoolHandover.HandoverConserves | contrib/resource_pool/include/yamail/resource_pool/async/detail/pool_impl.hpp:306-332 | so at that grain the lists, the queue and the disabled flag are those of whole returns, every cell under way is in use, and completions = posted + under way |
| PoolHandover.PromisedIsStaleExactlyWhen | contrib/resource_pool/include/yamail/resource_pool/async/detail/pool_impl.hpp:313-318 | a cell handed over with its value has that value when posted, whatever came in between, and is marked for disposal by then if and only if the pool was invalidated in between |
| PoolHandover.StaleHandoverHappens | contrib/resource_pool/include/yamail/resource_pool/async/detail/pool_impl.hpp:313-318 | a concrete run in which an invalidated value is posted |
| Requests.RequestContext.DiscardRest | include/ozo/impl/async_request.h:206-217 | the inner loop drops later results until none is left, suspending when busy |
| Requests.RequestContext.GetResult | include/ozo/impl/async_request.h:176-219 | one resumption of the result operation from any of its suspension points |
| Requests.StartInv | include/ozo/impl/async_request.h:318-333 | starting both operations establishes the invariant, whatever libpq answers |
| Requests.StepInv | include/ozo/impl/async_request.h:94-219 | every end of a wait, with or without error, keeps it |
| Requests.QuiescentMeansCalled | include/ozo/impl/async_request.h:61-271 | in every interleaving, when no wait is pending the handler has been called |
| Requests.NothingAfterError | include/ozo/impl/async_request.h:61-219 | after an error completion nothing more is reported, on any continuation |
| Requests.SuccessAfterSendIsFinal | include/ozo/impl/async_request.h:68-121 | a success that finds the query sent is the only call |
| Requests.CalledTwiceExactlyWhen | include/ozo/impl/async_request.h:61-219 | the handler is called at most once except when success came while the query was still being sent and sending failed later; then exactly twice |
| Requests.SecondCallPossibleExactlyWhen | include/ozo/impl/async_request.h:68-121 | after a success a second call can still follow if and only if the query state is `send_in_progress` |
| Requests.CalledTwiceHappens | include/ozo/impl/async_request.h:94-121 | a concrete run with two calls |
| RequestAnswers.HandlerHearsWhatWasHeard | include/ozo/impl/async_request.h:61-272 | on every run, from the answers heard: success is called if and only if the first result was none, or was good and processed without throwing; a failure with a code if and only if an answer tells of it, or the results ended after a first result whose status has that code; the calls come in the order of these answers |
| RequestAnswers.WaitsExactlyForMore | include/ozo/impl/async_request.h:61-219 | a pending write wait means output was left, a pending read wait that the connection was busy with the results not ended; without an error the result operation has ended exactly when the handler was called; good results are processed once they ended, once |
| RequestAnswers.StartHears | include/ozo/impl/async_request.h:61-219 | a request hears how its sending starts up to the first fault, and then the looks at the connection in their order |
| RequestAnswers.StepHears | include/ozo/impl/async_request.h:61-219 | the end of a wait is heard of unless the request has failed (or is sent, for writing), and then what libpq answered, in order and nothing else |
| Deadlines.IoDeadline.constructor | include/ozo/detail/deadline.h:15-21 | both ends hold the shared context, the counter is two and the user's handler is in place |
| Deadlines.IoDeadline.OperationDone | include/ozo/detail/deadline.h:23-35 | gives its context up; finds none exactly when used a second time; otherwise the user is called exactly when the timer has run, with `timed_out`, and before that the outcome is only stored; the handler is moved out at most once |
| Deadlines.IoDeadline.TimerDone | include/ozo/detail/deadline.h:72-84 | gives its context up; calls the user exactly when the operation is done, with the code and result it left, and otherwise leaves `timed_out` |
| Deadlines.MeetingCallsOnce | include/ozo/detail/deadline.h:23-84 | in either order: nothing after one event, one call after both, with the operation's result, `timed_out` exactly when the timer came first |
| Deadlines.CancelDeadline.OperationDone | include/ozo/impl/cancel.h:51-58 | the user hears of the operation if and only if the timer has not run; the handler is moved out at most once |
| Deadlines.CancelDeadline.TimerDone | include/ozo/impl/cancel.h:96-102 | the user hears of the time-out if and only if the operation has not completed |
| Deadlines.RaceCallsOnce | include/ozo/impl/cancel.h:51-102 | one call, at the first event, with that event's outcome |
| Deadlines.StepInv | include/ozo/detail/deadline.h:23-84 | request and deadline wrapper together: every event keeps their joint invariant, also after the request has called twice or started a wait without the wrapper's context |
| Deadlines.TimedRequestCallsOnce | include/ozo/impl/async_request.h:307-333 | a whole request behind the wrapper, every interleaving: the wrapper is used without its context if and only if a success was reported while still sending and then sending failed or its wait was started again; otherwise the user is called exactly once, when both are done, with the outcome that came first |
| Deadlines.FaultHappens | include/ozo/detail/deadline.h:23-28 | a concrete run in which the wrapper is called without its context |
| Deadlines.RearmFaultHappens | include/ozo/impl/async_request.h:114-133 | a concrete run without any failure in which a write wait is started and the wrapper asked for its executor without its context |
| Intervals.InteriorNoOverflow | include/ozo/ext/std/duration.h:49-77 | no intermediate overflows unless the day total is 106751992 or -106751992 |
| Intervals.NoOverflowMeansUnbounded | include/ozo/ext/std/duration.h:63-76 | where none does, the result is that of the same computation on unbounded integers |
| Intervals.SaturatesExactlyWhen | include/ozo/ext/std/duration.h:49-77 | the result is the exact length clamped to 64 bits, as documented, if and only if the interval is not one of the delicate ones next to the ends of the range |
| Intervals.DelicateHappens | include/ozo/ext/std/duration.h:63-76 | a concrete interval where the result is negative although the exact length is far above the range |
| Intervals.RoundTrip | include/ozo/ext/std/duration.h:37-77 | converting any 64-bit duration to an interval and back gives it again |
| Intervals.FromChronoMeaning | include/ozo/ext/std/duration.h:37-47 | a duration is split into whole days and less than a day, both of its sign, with no months |
| Endian.SwapGivesBigEndian | include/ozo/detail/endian.h:21-29 | a swapped integer stored by a little-endian machine lies in big-endian order |
| Endian.SwapReadsBigEndian | include/ozo/detail/endian.h:36-39 | bytes loaded by a little-endian machine and swapped are the big-endian number |
| Endian.DecodeEncode | include/ozo/io/istream.h:69-75 | reading a signed integer of any width undoes writing it |
| CodecTheorems.RoundTrip | include/ozo/io/recv.h:133-161 | for every type, every well-typed value that fits the format and any trailing bytes, `recv` of what `send` wrote gives the value and leaves exactly the trailing bytes |
| CodecTheorems.ArrayRoundTrip | include/ozo/io/array.h:114-171 | the same for arrays: header, dimension and element frames, nulls included |
| CodecTheorems.CompositeRoundTrip | include/ozo/io/composite.h:76-125 | the same for composites, whatever size is announced |
| CodecTheorems.DataFrameRoundTrip | include/ozo/io/send.h:110-114 | the same for a data frame |
| CodecTheorems.FrameRoundTrip | include/ozo/io/send.h:130-134 | the same for a full frame with its oid |
| CodecTheorems.ScalarRoundTrip | include/ozo/io/ostream.h:35-62 | the same for integers, booleans and intervals |
| CodecTheorems.AcceptedHasType | include/ozo/io/recv.h:133-168 | on arbitrary bytes: an accepted value has the asked type and the unread input is a suffix |
| CodecTheorems.ArrayHasType | include/ozo/io/array.h:133-170 | the same for arrays: every element has the element type |
| CodecFormat.AcceptsExactlyForms | include/ozo/io/recv.h:133-168 | on arbitrary bytes: a value is received leaving the rest if and only if the bytes before the rest are a form of it in the binary format (stated by offsets: words, counts, element and field oids, pieces), and the oid given is that of the type unless the value is null |
| CodecFormat.SentIsForm | include/ozo/io/send.h:92-95 | what is sent is a form of the value |
| CodecFormat.SentArrayHeader | include/ozo/io/array.h:114-124 | the five words of the header of an array that is sent |
| CodecFaults.RejectsExactlyFaults | include/ozo/io/recv.h:133-168 | on arbitrary bytes: they are rejected for an error if and only if it is their first fault, in the order in which the bytes come, through nested arrays and composites |
| CodecFaults.WrongOidIsRejected | include/ozo/io/recv.h:145-151 | a wrong oid, of the value, of the elements or of a field, gives exactly the oid mismatch, unless an accepted null comes with it |
| CodecFaults.FlatRejects | include/ozo/io/recv.h:116-160 | for fixed-width types and texts: oid mismatch, unexpected null, bad object size and length error each exactly when |
| CodecTruncation.Truncated | include/ozo/io/istream.h:105-111 | every proper prefix of an encoding, of any type and value, is refused with an end-of-input error |
| CodecTruncation.ArrayTruncated | include/ozo/io/array.h:133-170 | the same for arrays, wherever in header or elements they break off |
| CodecSizes.TruthfulExactlyWhen | include/ozo/io/size_of.h:104-148 | every length announced anywhere in an encoding is the real one if and only if no array of static-size elements mixes nulls with values |
| CodecSizes.ShortcutExactlyWhen | include/ozo/io/array.h:88-96 | the multiply shortcut equals the bytes written if and only if nulls are not mixed with values |
| CodecSizes.StaticArrayMisses | include/ozo/io/array.h:88-96 | by how many bytes it is off otherwise |
| CodecSizes.SizeMisses | include/ozo/io/size_of.h:104-148 | for every type and value, the announced length less the bytes written is the sum of what its arrays of static-size elements are off by |
| CodecSizes.MixedArrayLies | include/ozo/io/array.h:88-96 | concrete arrays announced four bytes too long and too short |
| CodecStreams.OStream.WriteInt | include/ozo/io/ostream.h:35-52 | appends the big-endian bytes through the swapped native buffer |
| CodecStreams.OStream.Send | include/ozo/io/send.h:92-95 | appends exactly the encoding, nothing for null |
| CodecStreams.OStream.SendDataFrame | include/ozo/io/send.h:110-114 | appends length and encoding |
| CodecStreams.OStream.SendFrame | include/ozo/io/send.h:130-134 | appends oid, length and encoding |
| CodecStreams.OStream.SendArray | include/ozo/io/array.h:115-124 | the loop appends the header and the element frames in order |
| CodecStreams.OStream.SendComposite | include/ozo/io/composite.h:77-86 | the loop appends the count and the field frames in order |
| CodecStreams.IStream.Read | include/ozo/io/istream.h:22-44 | gives the next bytes, or an end-of-input error when too few are left |
| CodecStreams.IStream.ReadSigned | include/ozo/io/istream.h:69-75 | the signed number in the next bytes, through the swapped native buffer |
| CodecStreams.IStream.Recv | include/ozo/io/recv.h:133-161 | refines the pure decoder: null, oid and unexpected-null checks in the original order, same value, same error, same position |
| CodecStreams.IStream.RecvArray | include/ozo/io/array.h:133-170 | refines it for arrays, with the dimension, oid and count checks in order |
| CodecStreams.IStream.RecvAll | include/ozo/io/array.h:166-168 | the element loop, stopping at the first error |
| CodecStreams.IStream.RecvFields | include/ozo/io/composite.h:103-125 | the field loop, stopping at the first error |
| CodecStreams.IStream.RecvDataFrame | include/ozo/io/recv.h:163-168 | refines it for data frames |
| CodecStreams.IStream.RecvFrame | include/ozo/io/recv.h:241-246 | refines it for full frames |
| BinaryQueries.Build | include/ozo/io/binary_query.h:146-169 | types, formats, lengths, pointers and buffer of any number of parameters |
| BinaryQueries.PointInto | include/ozo/io/binary_query.h:164-168 | the pointer is the sum of the earlier lengths, and null exactly when the length is zero |
| Layout.SlicesExactlyWhen | include/ozo/io/binary_query.h:160-168 | the lengths cut the buffer back into its pieces if and only if each is real |
| BinaryQueries.UniformSlices | include/ozo/io/binary_query.h:146-169 | parameters that mix no nulls into static-size arrays: slice i is the encoding of parameter i and the lengths add up to the buffer |
| BinaryQueries.AllSlicesExactlyWhen | include/ozo/io/binary_query.h:146-169 | for any parameters, every slice is the encoding of its parameter if and only if no length is off |
| BinaryQueries.Displaced | include/ozo/io/binary_query.h:164-168 | for any parameters, the encoding of parameter i lies where its pointer says, moved back by what the earlier lengths are off together |
| BinaryQueries.ArrivesExactlyWhen | include/ozo/io/binary_query.h:146-169 | a parameter behind lengths that are not off together arrives as given if and only if its own length is not off and it is not an empty string; an empty string arrives as null wherever it stands |
| BinaryQueries.AllArriveExactlyWhen | include/ozo/io/binary_query.h:146-169 | for any parameters that fit the format, all arrive as given if and only if no length is off and none is an empty string |
| BinaryQueries.ShiftedHappens | include/ozo/io/binary_query.h:164-168 | in the query of a mixed array and an integer after it, the innocent integer arrives as another one |
| BinaryQueries.ShiftedQuery | include/ozo/io/binary_query.h:146-169 | that query is built, and read so |
| Failover.NextRoleIsLeast | include/ozo/failover/role_based.h:534-549 | the next role is the least later one that can recover the error; none only if none can |
| Failover.EveryRunCallsOnce | include/ozo/failover/strategy.h:385-401 | however the tries end: at most one call, exactly one when the run is over, at most max(1, n) tries or one per role, and that many outcomes end every run |
| Failover.StopsExactlyWhen | include/ozo/failover/retry.h:152-162 | a run ends at an outcome if and only if it is a success, an unmatched or unrecoverable error, or the last allowed try; the handler gets that outcome |
| Failover.FailedAreClosedOnce | include/ozo/connection.h:908-919 | with closing on exactly the non-null connections of failed tries are closed, once each; with it off none is |
| Failover.TryUnderWay | include/ozo/failover/role_based.h:533-549 | on every run: the first try has all tries or the first role, a later one a try less or the least later role that recovers the error of the one before |
| Failover.OutcomeActions | include/ozo/failover/strategy.h:385-401 | on every run, what each outcome makes happen and in which order: notification, closing before (retry) or after (roles) the next start, or closing and the handler |
| Failover.EqualShares | include/ozo/failover/retry.h:16-25 | on every run, with n tries remaining and time L left when a try starts, its share q has q * n <= L < (q + 1) * n; no deadline, no share; no try remaining, a share of nothing |
| Failover.OwnDeadline | include/ozo/failover/retry.h:16-25 | on every run no try's own deadline passes the overall one, and a try with one remaining gets all the time left |
| Failover.OwnDeadlineLater | include/ozo/deadline.h:32-39 | a try that starts its timer later than its share was computed passes the overall deadline by no more than that delay |
| Failover.SharesNeverShrink | include/ozo/failover/retry.h:143-150 | if each try, with the gap after it, keeps to its share, no later try gets a smaller share, with roles skipped as well |
| Failover.ShareGrows | include/ozo/failover/retry.h:16-25 | shares are equal parts of the time left to within a tick each, and a try that used at most its share leaves every smaller number of tries at least that share each |
| FailoverSteps.Continuation.GetNextTry | include/ozo/failover/retry.h:112-125 | one try less, the retry decision, the notification, and the guard's closing, in that order |
| FailoverSteps.Continuation.InitiateNextRole | include/ozo/failover/role_based.h:533-549 | the recursion passes over roles, starts the right one and closes exactly once |
| FailoverSteps.Continuation.InitiateNextTry | include/ozo/failover/strategy.h:311-318 | the next retry starts after the failed connection was closed |
| FailoverSteps.Continuation.OnCompletion | include/ozo/failover/strategy.h:385-401 | refines the pure step: next try started or handler called, never both |
| QueryText.ParseTextLossless | include/ozo/query_conf.h:221-223 | whenever a text line parses, printing its parts gives the line back without its NULs |
| QueryText.ParamIsLongestWord | include/ozo/query_conf.h:222 | a parameter is a colon and the longest run of letters, digits and underscores after it |
| QueryText.ParsesExactlyWhen | include/ozo/query_conf.h:221-223 | without NULs: a line parses to given parts if and only if these are canonical and print to the line |
| QueryText.ParsePrinted | include/ozo/query_conf.h:221-223 | parsing the print of canonical parts gives the parts |
| QueryText.ParsedIsCanonical | include/ozo/query_conf.h:221-223 | what the grammar yields is canonical: names greedy, texts merged, colons only doubled or before an equals sign |
| QueryLines.LinesAlwaysParse | include/ozo/query_conf.h:148-152 | splitting into lines succeeds on every input |
| QueryLines.LinesKeepAllButNuls | include/ozo/query_conf.h:148-152 | and loses nothing but NULs |
| QueryLines.SplitsExactlyWhen | include/ozo/query_conf.h:148-152 | without NULs: an input splits into given lines if and only if these are canonical and concatenate to it |
| QueryLines.HeaderParses | include/ozo/query_conf.h:176 | every comment of the header form yields its name, for any spacing and line end |
| QueryLines.HeaderForm | include/ozo/query_conf.h:176 | without NULs, only comments of that form do |
| QueryRepository.LineVisitor.VisitLine | include/ozo/query_conf.h:242-289 | headers open a definition, text goes to the last one, text before any header and unparsable text are errors |
| QueryRepository.ParseQueryConf | include/ozo/query_conf.h:291-309 | the loop over the lines gives the definitions of the file or its first error |
| QueryDefinitions.HeadersMeaning | include/ozo/query_conf.h:242-289 | the header positions are exactly those of the comments of the header form, in order |
| QueryDefinitions.DefinitionsMeaning | include/ozo/query_conf.h:242-309 | a file is refused exactly when text comes before the first header, or else some text does not parse; otherwise one definition per header, in order, with the text of exactly the lines up to the next header, comments that are no headers changing nothing |
| QueryRepository.FindMember | include/ozo/query_conf.h:366-375 | the loop finds the first member of that name and its index |
| QueryRepository.PositionExactlyWhen | include/ozo/query_conf.h:364-397 | a parameter gets number k if and only if k is its own position, which is below the parameter count; each of the three errors exactly when |
| QueryRepository.NumberOfDecimal | include/ozo/query_conf.h:397 | the printed number determines the position |
| QueryRepository.MakeText | include/ozo/query_conf.h:405-415 | the loop over the parts gives the described text or the first error |
| QueryRepository.TrimMeaning | include/ozo/query_conf.h:413 | trimming removes exactly the white space at both ends |
| QueryRepository.CheckForDuplicates | include/ozo/query_conf.h:316-338 | succeeds if and only if no name repeats, and gives the set of names |
| QueryRepository.CheckForUndefined | include/ozo/query_conf.h:340-347 | succeeds if and only if every declared name is defined |
| QueryRepository.MakeRepository | include/ozo/query_conf.h:533-540 | all checks in the original order: the repository or the first error |
| QueryRepository.RepositoryExactlyWhen | include/ozo/query_conf.h:533-540 | a repository comes about if and only if the file parses, no name repeats, declared names are defined, and every definition is declared with the parameters it mentions |
| QueryRepository.RepositoryRefuses | include/ozo/query_conf.h:316-540 | which error refuses a repository: each check exactly when, in their order, then the first definition that is not declared or misses a parameter |
| QueryRepository.RepositoryNames | include/ozo/query_conf.h:533-540 | declared names = defined names = names that can be looked up, without repetition |
| QueryRepository.RepositoryHolds | include/ozo/query_conf.h:360-457 | each declared query's stored text is what is left, without the spaces at both ends, of pieces, one per part of its only definition: texts verbatim, parameters as a dollar sign and one more than their position in decimal |
| QueryFile.FileRoundTrip | include/ozo/query_conf.h:291-309 | a file written from any list of queries is read back as exactly these queries |

## Left out

- PoolTheorems.WaitingMeansAllUsed: is about runs of whole `get`s, because it is false when anything happens between
  the halves of one; `PoolGrain` gives the exact condition and the runs that break it.
- PoolTheorems.GrantsInArrivalOrder: is about runs of whole `get`s; with halves it holds among the requests served
  from the queue, which is `PoolTheorems.QueueServedInOrder`.
- Storage.CellStorage.Generated: the generator does not throw.
- Requests.RequestContext.GetResult: the cancelling of the connection's pending waits on an error shows only as waits
  that may end with an error at any time.
- CodecTheorems.RoundTrip: needs every length and count to fit 32 bits; the original's arithmetic on longer ones is
  not modelled.
- CodecSizes.SizeMisses: lengths are unbounded integers.
- Deadlines.IoDeadline.OperationDone: what the original does when it finds no context is not modelled, only that it
  comes to that.
- Deadlines.TimedRequestCallsOnce: of the look-ups of the wrapper's executor and allocator, which need its context
  too, it counts the one when a write wait is started again. Those the asynchronous runtime makes when a wait ends, or
  on its own account, are not modelled.
- PoolRuns.ReturnKeepsInv: takes a return as one step; `PoolHandover` shows what returns in halves come to.
- Deadlines.IoDeadline.TimerDone: a timer completes exactly once, as the asynchronous runtime promises.
- QueryText.ParsesExactlyWhen: is about text without NULs, because a skipped NUL can end a name; what holds with
  NULs is `QueryText.ParseTextLossless`.
- QueryLines.SplitsExactlyWhen: likewise; with NULs, `QueryLines.LinesKeepAllButNuls`.
- The synchronous pool, and the pool's statistics.
- libpq, sockets, executors, strands and allocators; they appear as arbitrary answers, completions and contexts.
- Establishing a connection, requesting the OID map, transactions, result and row proxies.
- Receiving into arrays of fixed size, into iterators and into result rows; the JSON, ltree, uuid and floating-point
  types.
- The trimming of the message of `cancel`, error categories and error messages.
- Compile-time plumbing: concepts, type traits, the generated OID table.
