# CLOB book engine: a verified model

The repository is an on-chain central limit order book. One market account holds
an 8,192-tick window of price levels indexed by two ring bitmaps, a pool of order
nodes that are linked at once into level queues, seat chains and a free list, and a
table of seats with free and locked balances. This project models that engine, the
instruction handlers over it and the two client conversions beside it.

There are two layers:

- **The book as a value.** `Books` gives the state: orders by pool handle, a queue
  per occupied tick, a sorted chain per seat, the free list, exact balances. `Ops`
  has its primitive changes; `Matching`, `Quoting`, `Merging`, `MassQuoting`,
  `Reanchoring`, `Reaping` and `Hygiene` say what each operation means; `Volumes` says
  what a match reaches and trades, `Placing` and `Collisions` when quotes are accepted
  and when they collide, and `Stopping` where a bounded window move stops, all told
  from orders, ticks, slots, flags and funds;
  `Venues` and `Runs` say what each instruction does to the book and the two vaults,
  and `Theorems` proves what holds over whole runs.
- **The account as memory.** `Words` and `Bitmaps` are the 64-bit words and the ring
  bitmap; `Layout`, `Queues`, `Chains` and `Represent` say when linked nodes, levels,
  seats and bits represent a book; the class `Engine.BookRefMut` relinks them step by
  step as the program does; `Handlers.Program` adds the vaults. Each method is proved
  to yield exactly the book, or the error, that the value layer says. `Posting`,
  `Filling`, `MergeSteps`, `ReapSteps`, `Creating` and `Outcomes` are the steps those
  methods are proved by.

`Counterexamples` holds concrete books and payloads on which a comment of the program
does not hold.

`Decimals`, `Scale` and `Codec` model the client's decimal conversions and the
MassQuote wire format.

A state after an error is discarded by the runtime, so no contract says anything
about it. Free balances are exact integers in the value layer and integers modulo
2^64 in memory, as the program credits with wrapping addition; locked balances are
exact in both. Order ids are insertion stamps modulo 2^64 - 1.

## Model

| member | source | states |
|---|---|---|
| `Bitmaps.Bitmap.Set` | program/src/state.rs:717-722 | `set` adds exactly the tick's ring position and keeps "summary bit set iff leaf word non-zero" |
| `Bitmaps.Bitmap.Clear` | program/src/state.rs:726-735 | `clear` removes exactly the tick's ring position and keeps the summary in step |
| `Bitmaps.Bitmap.ScanUp` | program/src/state.rs:739-766 | the word-by-word scan returns the least set position of a half-open range, or none if there is none |
| `Bitmaps.Bitmap.ScanDown` | program/src/state.rs:770-804 | the downward scan returns the greatest set position of a closed range, or none |
| `Bitmaps.Bitmap.NextAtOrAfter` | program/src/state.rs:810-825 | for any anchor and any `from` in the window: the least set tick at or after `from`, across the physical wrap of the ring |
| `Bitmaps.Bitmap.PrevAtOrBefore` | program/src/state.rs:830-845 | for any anchor and any `from` in the window: the greatest set tick at or before `from`, across the wrap |
| `Bitmaps.Bitmap.WordEmpty` | program/src/state.rs:863-865 | true exactly when none of the 64 ticks of an aligned word is set |
| `Bitmaps.RingUp` | program/src/state.rs:810-825 | two scans of the array halves, the wrapped one second, find the least tick of the window: why scanning the ring in two pieces is a scan of ticks |
| `Bitmaps.RingDown` | program/src/state.rs:830-845 | the same for the greatest tick |
| `Words.TrailingZeros` | program/src/state.rs:739-766 | the lowest set bit of a non-zero word: that bit is set and none below it is |
| `Words.LeadingZeros` | program/src/state.rs:770-804 | the highest set bit of a non-zero word |
| `Engine.BookRefMut.ThreadFreeList` | program/src/state.rs:1358-1365 | threading a range prepends exactly those nodes, in ascending order, to the free list and keeps its count exact |
| `Engine.BookRefMut.constructor` | program/src/admin/create_market.rs:429-465 | the zeroed account with its free list threaded from 1 represents the empty book |
| `Engine.BookRefMut.AllocNode` | program/src/state.rs:1335-1342 | pops the head of the free list, or PoolFull when the list is empty |
| `Engine.BookRefMut.FreeNode` | program/src/state.rs:1346-1354 | pushes a node, with size 0 and the all-ones id |
| `Engine.BookRefMut.NextOrderId` | program/src/state.rs:533-538 | hands out the counter, skipping the all-ones value, so no order id is ever the freed marker |
| `Engine.BookRefMut.Lock` | program/src/state.rs:1172-1193 | moves free to locked, and refuses exactly when the free balance is short |
| `Engine.BookRefMut.Unlock` | program/src/state.rs:1199-1215 | moves locked to free, and refuses exactly when the locked balance is short |
| `Engine.BookRefMut.FifoAppend` | program/src/state.rs:1379-1400 | relinks the tail, the level and the bitmap bit so that the queue gains the node at its end |
| `Queues.QueuesAppended` | program/src/state.rs:1379-1400 | that relinking, on levels and both bitmaps together, represents the book whose queue gained the order at its tail, and every other queue is as it was |
| `Engine.BookRefMut.FifoUnlink` | program/src/state.rs:1406-1428 | leaves levels and bitmaps representing the book without the order, its node still on its chain |
| `Layout.BridgeLevel` | program/src/state.rs:1406-1428 | bridging over a node yields exactly the queue without it: links, head, tail and wrapped total; an emptied level is zeroed |
| `Engine.BookRefMut.ChainUnlink` | program/src/state.rs:1460-1475 | takes the node off its seat chain and frees it: the account then represents the book without the order |
| `Engine.BookRefMut.ChainSplice` | program/src/state.rs:1479-1494 | links a node between two chain neighbours and counts it |
| `Chains.ChainsSpliced` | program/src/state.rs:1479-1494 | that splice represents the chain with the order inserted at its place; all other chains are untouched |
| `Engine.BookRefMut.ChainInsertSorted` | program/src/state.rs:1511-1522 | walks the chain to the first larger key and splices there: the place of (side, tick) in the sorted chain |
| `Engine.BookRefMut.KillOrder` | program/src/state.rs:1436-1446 | removes the order from queue, chain and pool and refunds its lock exactly; on a valid account the unlock never fails |
| `Engine.BookRefMut.BookInsert` | program/src/state.rs:1662-1685 | InvalidLots for a size of 0 or above the market's largest; else PoolFull exactly when no node is free; else a node is allocated, filled and queued with the next id |
| `Engine.BookRefMut.FindQuote` | program/src/state.rs:1584-1598 | the walk that stops past the key returns the maker's order at (side, tick), or none |
| `Quoting.FindQuoteExact` | program/src/state.rs:1584-1598 | what it finds is the only order of that maker, side and tick: found iff there is one |
| `Engine.BookRefMut.BestBid` | program/src/state.rs:1314-1316 | the greatest occupied bid tick |
| `Engine.BookRefMut.BestAsk` | program/src/state.rs:1319-1321 | the least occupied ask tick |
| `Matching.BestIsBest` | program/src/state.rs:1314-1321 | the best of a side bounds every occupied tick of that side and its queue is not empty; none means the side is empty |
| `Engine.BookRefMut.CheckOrSlideVs` | program/src/state.rs:1615-1657 | window and limit check, then reject or slide one tick off the opposing best, with every unchecked addition in range |
| `Quoting.CheckedTick` | program/src/state.rs:1615-1657 | a tick that passes is positive, in the window and at most `tick_limit`, also after a slide |
| `Placing.CheckedExactly` | program/src/state.rs:1615-1657 | told from the opposing ticks: outside the window the check fails; a tick that does not cross stays; one that does is refused or slides next to an opposing order, crossing none, unless that order is at the edge of the window |
| `Placing.InsertExactly` | program/src/state.rs:1499-1504 | a new order is refused at 128 orders of the seat, else when its lock is short, else when no node is free, and otherwise rests |
| `Changes.UnlistStructure` | program/src/state.rs:1436-1446 | removing an order keeps: each live node on exactly one queue and its maker's chain, chains strictly sorted, free and live nodes partitioning the pool, counts exact |
| `Changes.EnlistStructure` | program/src/state.rs:1662-1685 | adding an order at its place keeps the same structure |
| `Ops.KillInv` | program/src/state.rs:1436-1446 | ending an order and refunding its lock keeps the whole invariant, so every seat's locked balance still equals what its orders require |
| `Ops.FillInv` | program/src/state.rs:1856-1893 | a fill of a maker's order, partial or full, keeps the whole invariant |
| `Ops.PostInv` | program/src/state.rs:1574-1579 | lock, insert and splice of a new order keep the whole invariant, never crossed included |
| `Ops.LockCovers` | program/src/state.rs:1199-1215 | a live order's lock is covered by its maker's locked balance: a debit cannot fail |
| `Frames.KillQuiet` | program/src/state.rs:1436-1446 | no seat's total holdings change when an order ends, and nothing new appears |
| `Frames.KillOthers` | program/src/state.rs:1436-1446 | orders, balances, chains and relative queue order of every other maker are untouched |
| `Engine.BookRefMut.UpsertOrder` | program/src/state.rs:1535-1580 | the method yields exactly the error or the book of the specification, byte-linked structures included |
| `Engine.BookRefMut.AmendInPlace` | program/src/state.rs:1559-1570 | a size no larger is written in place: refund of the difference, level total, expiry |
| `Engine.BookRefMut.InsertSorted` | program/src/state.rs:1574-1579 | the cap check, the lock, the insert and the sorted splice of a new quote |
| `QuotingProperties.UpsertUpdates` | program/src/state.rs:1535-1580 | success is a map update at (side, slid tick): lots 0 removes it; a size no larger keeps node, id and queue place; a new or larger size gets a fresh id at the tail; every other order, queue and maker is untouched |
| `QuotingProperties.InsertUpdates` | program/src/state.rs:1574-1579 | an insert adds one order, on a node that was not live, at the tail of its queue |
| `Capacity.UpsertCapped` | program/src/state.rs:1499-1504 | an upsert fails only with its five listed errors, keeps every seat at 128 orders or fewer, and never sees PoolFull at full capacity |
| `Engine.BookRefMut.CancelOrder` | program/src/state.rs:1695-1711 | ends exactly the order that index, id and seat name, refunded, or answers OrderNotFound; the one call left out names a freed node of the seat by the freed id |
| `Hygiene.CancelExact` | program/src/state.rs:1695-1711 | succeeds iff the index is a live order of that seat with that id; then that order alone is gone from the book, its queue and its chain, its node heads the free list and its maker has back exactly what it locked |
| `Filling.CancelGuard` | program/src/state.rs:1695-1711 | the index, id and maker check passes iff the node is a live order of that seat with that id, or the id is the freed marker and the node is a freed one that was the seat's |
| `Counterexamples.FreedIdPasses` | program/src/state.rs:1695-1711 | on a newly created account node 1 is no order, yet index 1, seat 0 and the all-ones id pass the check |
| `Hygiene.StaleRefused` | program/src/state.rs:1695-1711 | a handle whose order has ended is refused even after its slot is reused, as long as fewer than 2^64 - 1 ids have been issued since |
| `Hygiene.IdsDistinct` | program/src/state.rs:533-538 | two live orders less than 2^64 - 1 insertions apart have different ids, neither the freed marker |
| `Hygiene.QueueIdsRise` | program/src/state.rs:533-538 | until the counter wraps, ids rise strictly along every level queue: time priority can be read off the ids |
| `Engine.BookRefMut.Take` | program/src/state.rs:1745-1902 | the nested loops end and yield exactly the fold of the specification: result, remaining book, maker balances and fees |
| `Engine.BookRefMut.MatchLevel` | program/src/state.rs:1794-1897 | one level of the fold: it drains the level or stops, on remaining lots and live orders that only shrink |
| `Engine.BookRefMut.NextLevel` | program/src/state.rs:1763-1793 | scanning on from the last level finds the same level as a fresh best-price scan |
| `Engine.BookRefMut.FillUnderBudget` | program/src/state.rs:1828-1850 | the fill size under the fee-inclusive budget, with no unchecked operation out of range |
| `Engine.BookRefMut.FillOrder` | program/src/state.rs:1856-1893 | maker settlement, level total and removal of a drained order: the account represents the filled book |
| `Engine.BookRefMut.DropHead` | program/src/state.rs:1814-1826 | an expired or own order is ended and refunded, and the fold goes on |
| `MatchingProperties.MatchTrades` | program/src/state.rs:1745-1902 | matching keeps the invariant, moves exactly the traded lots and quote out of the opposing makers, and never touches the taker's side, orders or totals |
| `Priority.MatchInPriority` | program/src/state.rs:1745-1902 | whatever was touched precedes, in price and then time, everything left on that side: no order is traded through |
| `Priority.MatchExhausts` | program/src/state.rs:1745-1902 | without a budget, stopping short leaves no opposing order at the limit tick or better |
| `Volumes.MatchWithinLimit` | program/src/state.rs:1763-1826 | under any budget, every order filled, dropped or refunded is an opposing one at the limit tick or better; one that is still there belongs to another seat, has not lapsed by the slot and lost lots only |
| `Volumes.MatchTradesVolume` | program/src/state.rs:1814-1893 | under any budget, the lots traded are exactly the lots that orders of other seats, within the limit and not lapsed by the slot, lost |
| `Volumes.MatchTakesVolume` | program/src/state.rs:1745-1902 | without a budget a match trades the lots asked for or, if that is less, every lot of such orders: an order that never expires is filled, not dropped |
| `Volumes.MatchAborts` | program/src/state.rs:1818-1826 | a match told to abort on a self trade does so iff an own live order within the limit is preceded, in price and time, by fewer tradable lots than were asked for |
| `Volumes.TakeSucceeds` | program/src/state.rs:1745-1762 | a take succeeds iff the lots asked for are between 1 and the market's largest order and it meets no own order it was told to abort on |
| `Volumes.SwapTradesAll` | program/src/taker/swap.rs:225-389 | a swap, which has no seat, takes no resting order for its own |
| `Budgets.MatchFees` | program/src/state.rs:1876-1884 | the fee of a match is the fee rate on its quote, never more, and less by under one unit a fill: at most one a lot, and without a budget one for each order that went and one more |
| `Runs.RestNeverCrosses` | program/src/maker/place_limit.rs:145-236 | a limit order that is not post only and not a cancel never answers WouldCross: after the match, the fees and the taker's settlement its remainder cannot cross |
| `Budgets.AffordableFits` | program/src/state.rs:1829-1853 | any fill up to the affordable one costs at most the budget, fee included, despite flooring |
| `Budgets.MatchWithinBudget` | program/src/state.rs:1829-1884 | over a whole match `quote + fee` stays within the budget and within the worst case of the lots traded |
| `Budgets.AccumulatedFits` | program/src/state.rs:1881-1884 | accumulated quote, fee and their sum fit u64 and the fee is at most the quote |
| `Books.NotionalFits` | program/src/admin/create_market.rs:344-361 | no notional, and no notional times 10_500, overflows u64 at a tick up to the limit |
| `Caps.CapExactly` | program/src/state.rs:1829-1839 | the overflow cap never reduces a fill, for any accepted parameters, order and budget, iff the fee is at most 246 bps |
| `Caps.CapHarmless` | program/src/state.rs:1829-1839 | at 246 bps or less capped and uncapped fills agree |
| `Caps.CapBinds` | program/src/state.rs:1829-1839 | above 246 bps concrete accepted parameters on which the cap shortens an affordable fill |
| `Caps.BudgetStops` | program/src/state.rs:1835-1850 | up to 246 bps, a stop before the lots run out means one more lot at the next level would cost at least what is left of the budget |
| `Engine.BookRefMut.MassQuoteSide` | program/src/state.rs:1965-2105 | one pass yields exactly the merge of the specification, and the cursor it returns is that place of the chain |
| `Engine.BookRefMut.MassQuoteInsert` | program/src/state.rs:2118-2141 | check or slide, stacking guard, lock, insert and splice at the cursor |
| `Engine.BookRefMut.MassQuote` | program/src/maker/mass_quote.rs:144-177 | the count check, the bid pass and the ask pass from the cursor the bid pass handed over |
| `Merging.InsertFits` | program/src/state.rs:2118-2141 | the stacking guard is exact: a tick that passes it has its own sorted place at the cursor, also when slid |
| `MergingProperties.MergeOneSided` | program/src/state.rs:1976-1979 | a pass touches only its own maker and side, so the opposing best read before the pass equals a rescan after it |
| `MergingProperties.MergeQuotes` | program/src/state.rs:1965-2105 | a pass leaves, from its start on, one order per payload quote in payload order with its lots, expiry and slid tick, then what was past its region; kept quotes keep node and id |
| `MassQuoting.AskStart` | program/src/maker/mass_quote.rs:157-173 | the bid pass's cursor is exactly the boundary between bids and asks of the chain |
| `MassQuoting.MassQuoteReplaces` | program/src/state.rs:1947-2105 | after success the seat's chain is the payload's bids, then its asks, one order per quote; bids slide against the best ask at entry, asks against the best bid the bid pass left; other makers' orders, balances and queue order are untouched |
| `Collisions.PassCollides` | program/src/state.rs:2060-2141 | from the payload and the book before a pass: WouldCross only if a crossing quote asks to be rejected, a crossing quote has another payload quote at or one short of the opposing best, or a crossing ask meets the seat's own ask next to the best bid; and each of these makes the pass fail |
| `Collisions.MassQuoteClashes` | program/src/maker/mass_quote.rs:144-177 | the whole instruction answers WouldCross only if the bids collide against the book at entry or the asks against the book the bids leave, and then it never succeeds |
| `Placing.FlaggedFails` | program/src/state.rs:1233-1235 | a quote that crosses the opposing best with the lowest bit of its flags set makes its pass fail |
| `Placing.FlaggedBidRefused` | program/src/maker/mass_quote.rs:144-177 | so does, for the whole instruction, a bid at or above any ask with that bit set |
| `Placing.PassSucceeds` | program/src/state.rs:1965-2141 | a pass succeeds when its quotes ascend, are in the window before and after a slide, are of good size, do not collide, and free balance and free nodes cover them all; each then rests at its tick, or one off the opposing best if it crosses |
| `Placing.MassQuoteSucceeds` | program/src/maker/mass_quote.rs:144-177 | TooManyOrders is answered iff there are more than 128 quotes; with no more, two passes with nothing in their way make the instruction succeed |
| `Placing.LoneBidSlides` | program/src/state.rs:2118-2141 | a single crossing bid with that bit clear, paid for, is accepted and rests one tick below the lowest ask as the only order of its seat |
| `Collisions.EqualSlidesFail` | program/src/state.rs:2130-2133 | two quotes of one side that slide to the same tick make the pass fail: neither is dropped |
| `Collisions.EqualBidsFail` | program/src/state.rs:2130-2133 | two bids of a payload that slide to the same tick fail the whole instruction |
| `Counterexamples.SlidBidsRefused` | program/src/state.rs:2130-2133 | a book and a payload of two crossing bids, both sliding to the tick below the best ask, answered with WouldCross |
| `Heartbeats.MassQuoteHeartbeat` | program/src/state.rs:2060-2100 | re-sending the resting quotes with a new expiry succeeds and changes nothing in the book but that seat's expiry fields |
| `Capacity.MassQuoteNeverFull` | program/src/constants.rs:34-38 | with the largest pool and every seat at its cap or below, no mass quote, a full side flip included, returns PoolFull |
| `Capacity.MassQuoteCapped` | program/src/maker/mass_quote.rs:151-155 | a successful mass quote leaves every seat at 128 orders or fewer |
| `Engine.BookRefMut.ReanchorStep` | program/src/state.rs:2172-2225 | yields exactly the moved book and the count of evicted orders |
| `Engine.BookRefMut.EvictLevel` | program/src/state.rs:2147-2156 | kills a whole level and counts its orders |
| `Reanchoring.EvictTicks` | program/src/state.rs:2189-2200 | vacating ticks removes exactly the orders on them, each refunded, and thins no other queue |
| `Reanchoring.ReanchorRestricts` | program/src/state.rs:2172-2225 | exactly the orders outside the returned window go, refunded and counted; the rest keep size and queue order; a call that returns below its budget has arrived, and any positive budget moves at least one word toward the clamped target |
| `Stopping.ReanchorStops` | program/src/state.rs:2172-2225 | told from the book before the call: the returned anchor is the first aligned one on the way whose window excludes at least the budget in orders, or the target, and the count is how many orders lie outside it |
| `Stopping.BudgetSpent` | program/src/state.rs:2187-2202 | a call that moved has spent less than its budget one word before it stops, and its count exceeds that by the orders of the last word alone |
| `Stopping.BudgetKept` | program/src/state.rs:2187-2202 | the count is at most the budget iff no more than that many orders lie outside the window the move stops at |
| `Counterexamples.BudgetOvershot` | program/src/state.rs:2187-2202 | a book with two orders in its first word on which a move with budget 1 evicts two |
| `Reanchoring.EnoughBudget` | program/src/state.rs:2172-2225 | a budget above the number of orders reaches the target, and which such budget does not matter |
| `Reanchoring.CallsAgree` | program/src/state.rs:2172-2225 | any sequence of bounded calls that ends at the target gives the same book as one unbounded call, also for moves longer than the window |
| `Reanchoring.CallsArrive` | program/src/state.rs:2172-2225 | one call a word, each with a budget of at least 1, is enough to arrive |
| `Reanchoring.IdealOk` | program/src/state.rs:2177-2179 | the clamped, aligned target is always an anchor the market allows |
| `Reanchoring.ReanchorReaches` | program/src/state.rs:2172-2225 | with a budget above the number of orders the window goes to the 64-tick word of the target, to tick 64 for a lower target and to the highest aligned anchor the limit allows for a higher one |
| `Anchoring.AnchorMoved` | program/src/state.rs:2187-2225 | after the leaving word is vacated, the same ring memory represents the book under the new anchor |
| `Engine.BookRefMut.ReapExpired` | program/src/state.rs:2229-2270 | yields exactly the book and the count of the specification |
| `Reaping.ReapExact` | program/src/state.rs:2229-2270 | only expired orders of the side at or after the clamped start go, each refunded once, at most max(1, `max_count`), earliest tick and age first; survivors keep their order; fewer than max(1, `max_count`) means none is left |
| `Reaping.ReapBySlot` | program/src/state.rs:2229-2270 | told from the stored slots: an order that goes is of the side, at or after the start, and has an expiry other than 0 and not above the slot; with count left none such stays |
| `Reaping.ReapRespectsCount` | program/src/state.rs:2256-2261 | no more than `max_count` orders go iff `max_count` is at least 1 or nothing is due; at 0 the count is exactly 1 when something is due and 0 when not |
| `Counterexamples.ReapOfNoneReapsOne` | program/src/state.rs:2256-2261 | a book with one expired order on which a reap of at most 0 orders reaps it |
| `Markets.ValidateExact` | program/src/admin/create_market.rs:318-361 | the checks pass iff sizes are positive, the anchor is a positive multiple of 64, the products fit u64, the last tick of the first window is one whose worst case fits, and the fee is at most 500; then the market carries what was asked for and the highest tick that fits; otherwise which error |
| `Markets.ValidatedOk` | program/src/admin/create_market.rs:318-361 | the checks imply every bound the unchecked arithmetic relies on |
| `Markets.TickLimitIsTight` | program/src/admin/create_market.rs:353-356 | one tick more would overflow the fee-inclusive worst case or leave the window no room |
| `Markets.CreatedSound` | program/src/admin/create_market.rs:318-465 | a market that passes the checks starts with the invariant, every seat under its cap and both vaults covering all claims |
| `Markets.WitnessAccepted` | program/src/admin/create_market.rs:318-361 | the parameters on which the cap binds are accepted by the checks |
| `Markets.SoundStartExists` | program/src/admin/create_market.rs:318-465 | a concrete accepted market with empty vaults is sound, at every allowed fee: the states the run theorems speak of exist |
| `Outcomes.ValidatedCreates` | program/src/admin/create_market.rs:429-465 | a zeroed header carrying validated parameters is a start the handlers' state may begin from |
| `Handlers.Program.constructor` | program/src/admin/create_market.rs:429-465 | a created market beside its vaults is a valid, sound state |
| `Handlers.Program.Deposit` | program/src/seat/deposit.rs:177-239 | each leg credits what was observed to arrive; overflow of vault or balance is the error of the leg |
| `Handlers.Program.Withdraw` | program/src/seat/withdraw.rs:180-253 | debits both free balances, all-ones meaning everything, then pays out; a short balance is refused |
| `Handlers.Program.CollectFees` | program/src/admin/collect_fees.rs:118-155 | drains exactly the accrued fees to outside |
| `Handlers.Program.PlaceTake` | program/src/taker/place_take.rs:129-182 | matches, checks the minimum output and settles the taker's seat |
| `Handlers.Program.PlaceLimit` | program/src/maker/place_limit.rs:145-236 | cancel at size zero, post only, or match, settle and rest the remainder |
| `Handlers.Program.SwapBuy` | program/src/taker/swap.rs:252-313 | pulls, matches within what arrived, refunds the leftover and pays the base; the subtraction for the leftover cannot underflow |
| `Handlers.Program.SwapSell` | program/src/taker/swap.rs:314-385 | matches whole lots of what arrived, refunds the rest and pays the quote net of fee |
| `Handlers.Program.Process` | program/src/lib.rs:42-71 | from a sound state, the outcome of each of the eleven modelled instructions on the linked account and vaults is exactly the one `Runs.Execute` gives, and a success leaves a sound state |
| `Runs.DepositExact` | program/src/seat/deposit.rs:177-239 | from a sound state a deposit fails only when a vault would overflow, and each leg asked for credits what arrived to that seat and that vault alone |
| `Runs.WithdrawExact` | program/src/seat/withdraw.rs:180-253 | from a sound state a withdrawal succeeds iff each amount is all ones or within the free balance; all ones leaves nothing free, any other amount is subtracted, and the vaults pay out what the seat loses |
| `Runs.CollectFeesExact` | program/src/admin/collect_fees.rs:118-155 | from a sound state collecting pays out all accrued fees and leaves none |
| `Runs.UpdateFeeExact` | program/src/admin/update_fee.rs:97-101 | a new fee is stored iff it is at most 500, and nothing else changes |
| `Runs.TakeKept` | program/src/state.rs:1745-1902 | a match moves out of or into the book exactly the base traded and the quote plus or minus the fee |
| `Runs.TakerKept` | program/src/taker/place_take.rs:129-182 | matching and settling the taker's seat together change no total: what leaves the makers reaches the taker, less the fee that is accrued |
| `Runs.SwapBuyKept` | program/src/taker/swap.rs:252-313 | a buying swap conserves, and from a sound state its refund and its output are covered by the vaults |
| `Runs.DepositKept` | program/src/seat/deposit.rs:177-239 | a deposit changes vault and claims alike |
| `Runs.WithdrawKept` | program/src/seat/withdraw.rs:180-253 | a withdrawal changes vault and claims alike and is always covered from a sound state |
| `Runs.CollectFeesKept` | program/src/admin/collect_fees.rs:118-155 | collecting changes vault and claims alike and is always covered |
| `Frames.ClaimsCover` | program/src/state.rs:1172-1216 | no free balance and no fee exceeds the claims on its asset, and none is negative: while claims fit u64 no wrapping credit wraps |
| `Theorems.ExecuteKept` | program/src/taker/swap.rs:225-389 | every successful instruction keeps the invariant, the seat cap, the freshness of stamps and, per asset, vault minus claims |
| `Theorems.ExecuteErrs` | program/src/state.rs:1172-1216 | from any invariant state no instruction answers InvalidState; from a sound one no transfer is short; at full capacity and under the cap none answers PoolFull |
| `Theorems.RunKept` | program/src/state.rs:1172-1216 | over whole runs vault minus all seats' free and locked balances, and accrued fees on the quote side, never changes |
| `Theorems.RunSound` | program/src/constants.rs:34-38 | after any run from a sound state: still sound, all claims fit u64, and no next instruction can answer VaultShort, InvalidState or, with the largest pool, PoolFull |
| `Theorems.RunRefusesStale` | program/src/state.rs:1695-1711 | in any run, once an order has ended its handle is refused for the next 2^64 - 1 insertions, whoever holds its slot |
| `Runs.MatchErrs` | program/src/state.rs:1745-1902 | the only error a match has is SelfTrade, and only when the caller asked to abort on it |
| `Decimals.ParseDecimal` | sdk/rust/src/scale.rs:76-91 | the digit loop yields the checked reading of the trimmed text: first bad character or overflow decides |
| `Decimals.ReadIs` | sdk/rust/src/scale.rs:82-89 | reading succeeds with `v` iff the text is all digits, denotes `v` and `v` fits u128 |
| `Decimals.ParsedIs` | sdk/rust/src/scale.rs:76-91 | a parse succeeds iff the trimmed text is digits around at most one point, not both empty; the digit count is cut to u32 |
| `Decimals.RenderParses` | sdk/rust/src/scale.rs:66-91 | what is rendered parses back to the same integer and number of decimals |
| `Decimals.Pow10Fits` | sdk/rust/src/scale.rs:61-63 | a power of ten is available iff the exponent is at most 38 |
| `Scale.MulDivExact` | sdk/rust/src/scale.rs:42-59 | fails only on a zero divisor or a product over u128, and otherwise is the floor, ceiling or nearest quotient |
| `Scale.AmountRoundTrips` | sdk/rust/src/scale.rs:94-107 | atoms to text and back is the identity for every u64 and decimals up to 38, and rendering fails for any more |
| `Scale.AmountExact` | sdk/rust/src/scale.rs:99-107 | a text is accepted as `a` iff it denotes exactly `a` at that scale: nothing is truncated |
| `Scale.TickExact` | sdk/rust/src/scale.rs:134-153 | Down and Up give the exact floor and ceiling tick, Nearest the closest |
| `Scale.PriceRoundTrips` | sdk/rust/src/scale.rs:111-153 | with tick_size * 10^(base + out decimals) >= base_lot_size * 10^quote_decimals, tick to price to tick under Nearest gives the same tick or an overflow, never another tick |
| `Scale.PriceRoundTripsExactly` | sdk/rust/src/scale.rs:111-153 | whenever neither call errors the round trip gives the tick back iff a condition on the remainder of one product holds |
| `Scale.CoarsePriceLosesTick` | sdk/rust/src/scale.rs:111-153 | concrete coarse units on which tick 1 is rendered as 0 and read back as tick 0 |
| `Codec.Encode` | sdk/rust/src/lib.rs:51-86 | the pushed bytes are the discriminator and the payload; more than 255 quotes a side is refused |
| `Codec.DecodeEncoded` | program/src/maker/mass_quote.rs:86-116 | decoding what the client encodes returns its arguments |
| `Codec.Rebuilt` | program/src/maker/mass_quote.rs:86-116 | every payload the program accepts re-encodes to itself |
| `Codec.DecodesExactly` | program/src/maker/mass_quote.rs:86-116 | a payload is accepted and read as `a` iff it is the encoding of `a` |
| `Codec.SliceInverse` | program/src/state.rs:1244-1251 | parsing quote by quote gives back a list iff the slice is that list's bytes |

## Findings

Places where the code does not do what its own text says, or does so only under a
condition. Each item names the lemma that states the exact condition for all inputs
and the lemma at an input on which the text fails.

- **The overflow cap can bind.** program/src/state.rs:1832-1835 calls the cap on the
  budget product semantically lossless. It is iff the fee is at most 246 bps, where
  the program allows 500: `Caps.CapExactly`. Input: the parameters of `Caps.CapBinds`,
  accepted by `Markets.WitnessAccepted`.
- **A coarse price scale loses ticks.** sdk/rust/src/scale.rs:132-133 calls
  `ui_price_to_tick` the inverse of `tick_to_ui_price`. When neither call errors it is,
  at a given tick, iff `Scale.Recoverable` holds: `Scale.PriceRoundTripsExactly`. A fine
  enough scale guarantees that (`Scale.PriceRoundTrips`). Input:
  `Scale.CoarsePriceLosesTick`.
- **The freed id passes the cancel check.** program/src/state.rs:1692-1694 says the id
  comparison alone rejects ended orders. The check lets an index through iff it is a
  live order of that seat with that id, or a freed node that was last the seat's and
  the id is the all-ones one: `Filling.CancelGuard`. Input:
  `Counterexamples.FreedIdPasses`.
- **A colliding slide rejects the mass quote.** program/src/state.rs:1952-1956 says
  such a quote is dropped, program/src/state.rs:2111-2115 that the instruction is
  rejected, and the code at program/src/state.rs:2131-2133 returns WouldCross. No
  payload with two quotes of a side that slide to one tick succeeds
  (`Collisions.EqualSlidesFail`, `Collisions.EqualBidsFail`). A pass answers WouldCross
  only if it collides in the sense of `Collisions.Collides`, which speaks of the payload
  and the book before the pass, and a pass that collides always fails, if not with
  WouldCross then with an error met earlier: `Collisions.PassCollides`, and
  `Collisions.MassQuoteClashes` for the instruction. Input:
  `Counterexamples.SlidBidsRefused`.
- **The reanchor budget counts orders, once a word.** program/src/state.rs:2167-2171
  speaks of a bound on levels and of stopping when it runs out mid-word. The budget is
  compared with the orders evicted so far, before each 64-tick word. So the count is
  within the budget iff no more than that many orders lie outside the window the move
  stops at, which is the first on the way to exclude that many, or the target:
  `Stopping.BudgetKept`, with `Stopping.ReanchorStops`. It exceeds the budget by less
  than the orders of the last word: `Stopping.BudgetSpent`. Input:
  `Counterexamples.BudgetOvershot`.
- **A reap of at most 0 orders can reap one.** The count is tested after the kill, at
  program/src/state.rs:2256-2261. It stays within `max_count` iff that is at least 1 or
  no order is due: `Reaping.ReapRespectsCount`. Input:
  `Counterexamples.ReapOfNoneReapsOne`.

## Left out

- Engine.BookRefMut.CancelOrder: is not called with a freed handle (`Filling.FreedHandle`), because the code then unlinks a node that is on no list and corrupts the account; `Filling.CancelGuard` says exactly when that can happen. The Cancel instruction of a run carries an id a live order can have (`Runs.OrderId`).
- Handlers.Program.Process: covers eleven discriminators of program/src/lib.rs:42-71; CreateMarket is the constructor, and CreateConfig, UpdateConfig, ClaimSeat and CloseSeat, which touch no order and no balance, are not modelled.
- Markets.CreatedSound: takes the pool capacity in its range, which the account length check at program/src/admin/create_market.rs:112-118 establishes.
- Account validation, signers, program-derived addresses and associated token accounts, seat ownership, config roles, claiming and closing seats, the sequence number, logs and events.
- Token transfers: an inbound one adds an arbitrary observed amount, an outbound one subtracts exactly the amount; each vault is a number, and tokens sent to it by other routes only add to it.
- The amount observed on an inbound transfer is not bounded by the amount requested: the results hold for any.
- Two markets' vaults are not compared; the check that base and quote mints differ, the mint parsing and the Token-2022 extension scan are not modelled.
- The byte layout of the account: fields are typed, and only the MassQuote payload is modelled in bytes.
- The level totals' 64-bit width is modelled by wrapping; nothing reads them but the level itself.
- Instruction decoders other than MassQuote's: the handlers take typed arguments.
- Snapshot decoding, the generated clients, benches and compute costs.
- Text is a sequence of Unicode scalar values, where the client loops over UTF-8 bytes; a character outside ASCII is refused either way.
