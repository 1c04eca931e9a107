# rsx-book in Dafny

This project models the matching core of `rsx-book` (the order book, the matcher and the index
structures behind them) and proves that it behaves like a very small specification: two lists of
resting orders sorted by price and then arrival.

The code reaches that behaviour through a slab of slots whose `next` field serves two kinds of
list, intrusive queues per slot, prices folded into compressed slots whose index is not price
ordered, a tree of 64-bit occupancy words per side, cached best prices, and a migration that moves
a live book from one price map to another. Each of these is modelled in the form the source gives
it (classes with fields updated in place, loops with invariants, pure arithmetic for the map), tied
to ghost state by `Valid()`, and each operation is proved against a function of the simple book.

## How it is organised

| files | contents |
|---|---|
| `Types` | orders, slots, levels, events, constants |
| `Compression`, `Sawtooth` | the price map, the `price_asc` ranges, and when price order is recovered from them |
| `Word`, `Bitmap` | 64-bit words as numbers and the occupancy tree against a plain set |
| `Arena` | the slab and its freelist |
| `PriceTime` | the simple book, its sorted ladders, the simple matcher and a declarative account of it |
| `Levels`, `Arrangement`, `BookFacts` | queues, level headers and the whole level array, on values |
| `OrderBook` | the `Orderbook` class: insert, cancel, modify, best prices, BBO, rebuild |
| `MatchFacts`, `Matching` | the match loop, level by level |
| `FokFacts`, `FillOrKill`, `FokExact`, `FokGap`, `FokWitness` | the fill-or-kill pre-check, exactly when and by how much it errs, and a book on which it does |
| `Outcome`, `NewOrder`, `Laws`, `Positions` | what a new order does, the method that does it, and what follows for events, quantities and positions |
| `MoveFacts`, `Migration`, `Frontier` | recentering at once and step by step |
| `Answers`, `Reports` | what the events of one call mean, in the terms of the order and of the books before and after |
| `Runs`, `Engine`, `Twins`, `Histories` | whole runs of commands, runs compared across price maps, and runs as a submitter sees them |

## Main results

* **Matching is price-time matching.** `Matching.MatchLoop` gives exactly the fills of
  `PriceTime.Sweep`, which walks one sorted ladder and stops at the maker cap, whatever slots the
  makers rest in and in whatever order a compressed slot is walked. `PriceTime.SweepFair` and
  `PriceTime.FairIsSweep` say what those fills are without walking anything.
* **A new order does what the simple book prescribes.** `NewOrder.ProcessNewOrder` is proved
  against `Outcome.Responded`: verdict, fills, resting orders and positions are functions of the
  resting orders, the positions and the order, not of the layout, and so is every event; only the
  order in which the fills of one call are reported may follow a compressed slot.
* **What a caller reads is true.** The response is also characterised without the functions that
  compute it, from the order's fields, the events and the two books: which failure is reported
  (`Answers.FailsExactly`), how an order that matched ends (`Answers.EndsExactly`), that filled and
  left make up what was asked (`Answers.AnswersInFull`), what a best-price report says and when it
  is due (`Reports.BboExactly`), and that the new book and the new positions follow from the events
  alone (`Reports.BookFollowsEvents`, `Reports.PositionsFollowEvents`).
* **Representation invariant.** `Orderbook.Valid()` ties every link, count, total, bit, handle and
  best price to the ghost book, and every operation of the engine keeps it; `Engine.ExecuteAll`
  keeps it over runs of any length, shows that the run is a run of the simple book, and stops early
  only at an order that would rest while every slot of the slab is taken.
* **Never crossed, each order completed once, nothing lost, positions balanced**, over all runs:
  `Runs.RunSane`, `Runs.SingleCompletion`, `Runs.NoOrderLost`, `Runs.RunBalances`. Every
  resting order goes back to one submission and keeps its fields (`Histories.Origin`), and a cancel
  by the handle reported and the name submitted hits that order or nothing, however often the handle
  was reused (`Histories.CancelSubmitted`).
* **Recentering is unobservable.** `Migration.RecenterNow` keeps the orders; `Twins.RunsOfBooks`
  shows that two runs of the same commands on differently mapped books give the same verdicts,
  shares, positions and best prices at every step, fill-or-kill orders within the maker cap
  included, although the slab may hand out different handles.
* **Incremental migration** keeps every order within the frontier active and reaches the same book
  by any interleaving of resolved prices and batches (`Frontier.RecenterByScript`).
* **Fill-or-kill.** `FokGap.GapInSlot` locates the difference between what the pre-check counts and
  what the match fills in the one slot where the maker cap falls; `Laws.FokAllOrNothing` gives the
  verdict of every fill-or-kill order from it.
* **Price order is recovered from the sawtooth** for the prices orders can have if and only if the
  outermost zone keeps two slots or the failing prices are off the grid
  (`Sawtooth.OrderRecoveredExactly`); on every other map a scan misses a best price
  (`Sawtooth.LostOrderSeen`).

## Where the code and its comments disagree

The comment on the fill-or-kill residual says the pre-check is exact, so that an order that enters
the match always fills. It is not: in a compressed slot the pre-check counts makers in arrival order
while the match takes the best price first, and past the maker cap the two can differ.
`FokWitness.FokPartiallyFills` builds such a book with ordinary inserts and ends with a fill-or-kill
order filled in part and reported `MatchLimit`.

For all books the exact condition is local to one slot, the one in which the maker cap falls:
`FokGap.GapInSlot` shows that everything ahead of it counts the same both ways, so that the two
sums differ by the first makers of that slot taken by arrival and taken by price and arrival.
`FokGap.PreCheckExactly` concludes that pre-check and match agree on every size if and only if the
crossing makers fit the cap or those two sums are equal, and `FokGap.HarmlessCaps` names three ways
to see it: the slot is in zone 0, its crossing makers share one price, or the cap falls at its end.
`Laws.FokAllOrNothing` gives the verdict: a fill-or-kill that passes the checks ends match-limited
if its size lies in that gap and is filled completely otherwise, so the residual branch is never
taken. `Laws.FokKilledInVain` is the opposite error: an order killed though the match would have
filled it. The model follows the code.

## Reading the contracts

* `live` is the ghost map from handle to resting order; `stamp` numbers arrivals (the source's
  64-bit sequence, of which a slot keeps the low 32 bits).
* The source writes its buy and sell halves out twice. Where they mirror each other the model has
  one member with a `side` parameter and compares prices by `Key`, smaller being better.
* `Regular(map)` is the non-degenerate case: ordered thresholds, both halves present in every zone,
  counts that do not wrap. `Compression.RegularWhenWide` says which middle prices give it, and
  `Sawtooth.OrderRecoveredExactly` what the others lose.
* `Intact()` is `Valid()` without the claims that the book is uncrossed and all quantities positive.
  A direct insert, a price change or a reduction to a negative quantity keeps it, as in the source.
* Preconditions of the operations are those of the source: prices positive and tick-aligned where
  the source does not check them, and `remaining == qty` on entry. The slab's own `Alloc` needs a
  free slot, where the source would stop; a new order needs none on entry and reports `exhausted`
  exactly when it should rest and its fills have freed no slot.

## Model

| member | source | states |
|---|---|---|
| Compression.BuildPriceAsc | rsx-book/src/book.rs:617-632 | the loop builds exactly the non-empty bid regions from the outermost in, then the ask regions outward |
| Compression.OffsetPlain | rsx-book/src/compression.rs:106-117 | inside its zone a raw distance divides without wrapping a u32 and is clamped to the last slot |
| Compression.IndexInBand | rsx-book/src/compression.rs:81-126 | every price has its slot inside the array and inside the range of its band |
| Compression.RangesPartition | rsx-book/src/book.rs:580-632 | every slot is in exactly one `price_asc` range |
| Compression.SawtoothOrder | rsx-book/src/compression.rs:81-126 | for prices p < q the slot of p is at or before the slot of q in (range, index) order, across zones, clamped slots and odd counts |
| Compression.ZoneZeroInjective | rsx-book/src/compression.rs:55-60 | tick-aligned prices sharing a zone-0 slot are equal, even if mid is not aligned |
| Compression.NewMapPlain | rsx-book/src/compression.rs:25-77 | without overflow the map's thresholds, slot counts and bases are the plain percentages and quotients |
| Compression.RegularWhenWide | rsx-book/src/compression.rs:25-77 | a wide enough middle price gives a map with both halves in every zone |
| Sawtooth.RegularPlaces | rsx-book/src/book.rs:511-539 | on a non-degenerate map the walks up and down meet the slots of any two prices in price order |
| Sawtooth.OrderRecoveredExactly | rsx-book/src/compression.rs:25-77 | for every middle price and tick whose counts fit, the walks over the ranges recover the order of all prices on the tick grid if and only if 20% of mid is at least 1000 ticks, or zone 1 has no slot and no price on the grid is left to go astray |
| Sawtooth.LostOrderSeen | rsx-book/src/book.rs:485-539 | on every other map there are two prices on the grid such that, with buys resting at both, the first marked slot of the walk down is not the slot of the better one |
| Word.SetBitBits | rsx-book/src/occupancy.rs:67-83 | setting a bit changes that binary digit and no other |
| Word.ClearBitBits | rsx-book/src/occupancy.rs:85-100 | clearing a bit changes that binary digit and no other |
| Word.TrailingZerosIsLowest | rsx-book/src/occupancy.rs:102-138 | trailing zeros of a non-zero word is its lowest set bit |
| Word.HighestBitIsHighest | rsx-book/src/occupancy.rs:140-180 | the highest bit of a non-zero word is above all other set bits |
| Bitmap.AncestorBit | rsx-book/src/occupancy.rs:30-36 | a member's summary bit is set at every level of the tree |
| Bitmap.Occupancy.constructor | rsx-book/src/occupancy.rs:40-53 | a new bitmap of any size represents the empty set |
| Bitmap.Occupancy.Set | rsx-book/src/occupancy.rs:67-83 | the set gains the slot and every summary bit still says whether its child word is non-zero |
| Bitmap.Occupancy.Clear | rsx-book/src/occupancy.rs:85-100 | the set loses the slot and every summary bit still says whether its child word is non-zero |
| Bitmap.Occupancy.FindNext | rsx-book/src/occupancy.rs:102-138 | the least member at or above the argument, or none exactly when there is none, for any size and depth |
| Bitmap.Occupancy.FindPrev | rsx-book/src/occupancy.rs:140-180 | the greatest member at or below the argument, or none exactly when there is none |
| Bitmap.Occupancy.FindFirstIn | rsx-book/src/occupancy.rs:182-189 | the least member of a half-open range, or none exactly when the range has none |
| Bitmap.Occupancy.FindLastIn | rsx-book/src/occupancy.rs:191-196 | the greatest member of a half-open range, or none exactly when the range has none |
| Arena.Slab.Alloc | rsx-book/src/slab.rs:33-47 | hands out the next upcoming handle, never one in use, and shifts the upcoming allocations by one |
| Arena.Slab.Free | rsx-book/src/slab.rs:49-75 | the handle becomes the next to be allocated and the freelist stays an acyclic chain |
| Arena.Slab.IsFree | rsx-book/src/slab.rs:79-89 | walking the chain finds a handle exactly when it is free |
| Arena.Slab.FreeCount | rsx-book/src/slab.rs:116-124 | the number of free handles |
| Arena.Slab.FreeHandles | rsx-book/src/slab.rs:127-135 | the free handles in the order future allocations take them |
| Arena.Slab.RestoreFreeHandles | rsx-book/src/slab.rs:138-145 | restoring a saved list gives the same future allocations |
| PriceTime.LadderOrdered | rsx-book/src/matching.rs:26-36 | the ladder lists a side once each, best price first, oldest first within a price |
| PriceTime.SweepFair | rsx-book/src/matching.rs:347-367 | the simple matcher fills only crossing makers, in turn, never past the taker or the cap, and stops only for a reason |
| PriceTime.FairIsSweep | rsx-book/src/matching.rs:347-367 | those properties leave only one set of fills: the simple matcher's |
| PriceTime.TotalReorder | rsx-book/src/matching.rs:347-352 | what the makers receive together does not depend on the order they are walked in |
| Levels.AppendOk | rsx-book/src/book.rs:195-227 | linking at the tail keeps links, counts, total, arrival order and slot of the whole queue |
| Levels.RemoveOk | rsx-book/src/book.rs:253-293 | unlinking any member keeps links, counts, total and arrival order of the rest |
| Levels.RequantifyOk | rsx-book/src/book.rs:387-413 | changing one quantity and the total by the difference keeps the level |
| Arrangement.InsertArranged | rsx-book/src/book.rs:161-251 | after an insert every order is in the queue of its price's slot and every other level is untouched |
| Arrangement.RemoveArranged | rsx-book/src/book.rs:253-293 | after an unlink every remaining order is in the queue of its price's slot |
| Arrangement.WalkFollowsPrice | rsx-book/src/book.rs:511-539 | lower prices have slots earlier on the walk over the ranges |
| Arrangement.ScanFindsBest | rsx-book/src/book.rs:418-493 | the best price inside the first marked slot of the walk is the best price of the side |
| Arrangement.ZoneZeroTop | rsx-book/src/book.rs:418-480 | in zone 0 of an uncrossed book the head price and the level total answer for the side |
| Arrangement.BestUnique | rsx-book/src/book.rs:485-493 | the best price is determined by the orders alone, whatever the map |
| OrderBook.Orderbook.constructor | rsx-book/src/book.rs:90-126 | a new book is valid and empty |
| OrderBook.Orderbook.ScanNext | rsx-book/src/book.rs:520-539 | the first slot on the price walk holding the side, NONE exactly when the side is empty |
| OrderBook.Orderbook.TopAt | rsx-book/src/book.rs:418-480 | the side's best price in a slot and the quantity resting at exactly that price, though the slot may hold both sides and several prices |
| OrderBook.Orderbook.RefreshBest | rsx-book/src/book.rs:485-493 | the cached best of the side is exact again |
| OrderBook.Orderbook.ImproveBest | rsx-book/src/book.rs:228-243 | after an insert both cached bests are exact |
| OrderBook.Orderbook.Emit | rsx-book/src/book.rs:128-136 | appends one event, and the buffer has room for it |
| OrderBook.Orderbook.Store | rsx-book/src/book.rs:161-195 | a fresh handle holds the order, not in any queue and not free |
| OrderBook.Orderbook.LinkTail | rsx-book/src/book.rs:195-227 | the order is last in its slot's queue; only links changed elsewhere |
| OrderBook.Orderbook.InsertResting | rsx-book/src/book.rs:161-251 | the book gains exactly this order at the next upcoming handle, last in its queue, bests exact, whether or not the price crosses |
| OrderBook.Orderbook.UnlinkOrder | rsx-book/src/book.rs:253-293 | the order leaves its queue and the bitmaps, counts and totals follow |
| OrderBook.Orderbook.CancelOrder | rsx-book/src/book.rs:295-321 | succeeds exactly when an order is live at the handle, removes only it and frees its handle |
| OrderBook.Orderbook.CancelOrderChecked | rsx-book/src/book.rs:326-337 | succeeds exactly when the named order is still live at the handle; otherwise nothing changes |
| OrderBook.Orderbook.MatchesIsNamed | rsx-book/src/book.rs:339-352 | the identity check on the slot finds exactly the order still live there |
| OrderBook.Orderbook.ModifyOrderPrice | rsx-book/src/book.rs:354-385 | the order keeps its quantity and handle, takes the new price and is younger than every other order; the book stays intact, and valid if nothing else crosses the new price |
| OrderBook.Orderbook.ModifyOrderQtyDown | rsx-book/src/book.rs:387-413 | reduces in place without moving any queue, cancels at zero, refuses to increase; a negative quantity is stored as the source stores it |
| OrderBook.Orderbook.CurrentBbo | rsx-book/src/book.rs:499-508 | each side's best price and the sum of all quantity resting at it |
| OrderBook.Orderbook.RebuildOccupancy | rsx-book/src/book.rs:546-572 | recomputing counts and bitmaps from the queues changes nothing |
| Matching.FillMaker | rsx-book/src/matching.rs:397-452 | one fill: maker reduced or retired, events, positions and queue accordingly |
| Matching.FillLevel | rsx-book/src/matching.rs:377-456 | walking a queue is the simple matcher on that queue with the room the cap leaves |
| Matching.ScanCrossing | rsx-book/src/matching.rs:315-336 | count, quantity and best price of the crossing makers of a slot |
| Matching.FillBestPrice | rsx-book/src/matching.rs:360-366 | one price round of a compressed slot respects priority within the slot |
| Matching.MatchCompressedSlot | rsx-book/src/matching.rs:353-367 | however the slot is walked, fills respect price-time priority and it stops only when done, capped or nothing crosses |
| Matching.MatchAtLevel | rsx-book/src/matching.rs:340-346 | the same for any slot |
| Matching.MatchRound | rsx-book/src/matching.rs:137-163 | one visit to the best slot extends the fills in priority order, and fills nothing only when the simple matcher would stop too |
| Matching.MatchLoop | rsx-book/src/matching.rs:137-163 | the fills are the simple matcher's on the sorted ladder with the maker cap; among makers of one price the fills come oldest first; the rest of the book, events and positions follow; the event count is at most twice the cap and exactly twice the makers while quantity remains |
| MatchFacts.SlotToBook | rsx-book/src/matching.rs:137-163 | priority respected inside the best slot is priority respected on the whole side |
| MatchFacts.BestSlotDecides | rsx-book/src/matching.rs:148-150 | if nothing crosses in the best slot nothing crosses at all |
| FokFacts.SweepTotal | rsx-book/src/matching.rs:137-163 | the match fills the smaller of the size and what the first makers up to the cap hold |
| FokFacts.NothingBeyond | rsx-book/src/matching.rs:531-533 | once a slot has no crossing maker no later slot on the walk has one |
| FillOrKill.SumQty | rsx-book/src/matching.rs:597-606 | the quantity of the first orders of a queue |
| FillOrKill.CountLevel | rsx-book/src/matching.rs:489-535 | what one level adds to the running totals, and when the answer is already decided |
| FillOrKill.CanFillFully | rsx-book/src/matching.rs:478-595 | true exactly when the makers in visiting order, up to the cap, hold the needed quantity |
| FokExact.VisitsEveryMaker | rsx-book/src/matching.rs:486-592 | the pre-check's walk would visit every crossing maker once |
| FokExact.FillsWhenFillable | rsx-book/src/matching.rs:137-163 | what the match fills, as a sum over the priority order |
| FokExact.PreCheckExact | rsx-book/src/matching.rs:119-129 | pre-check and match agree whenever the crossing makers fit the cap or all rest in zone 0 |
| FokGap.VisitedAtSlot | rsx-book/src/matching.rs:486-592 | the part of the pre-check's walk that lies in a slot is that slot's crossing makers in arrival order |
| FokGap.GapInSlot | rsx-book/src/matching.rs:509-530 | with at least cap-many makers, pre-check and match count the same ahead of the slot where the cap falls; in it one adds the first makers by arrival, the other the first by price and arrival |
| FokGap.PreCheckExactly | rsx-book/src/matching.rs:119-129 | pre-check and match agree on every size if and only if the crossing makers fit the cap or the two sums of that one slot are equal |
| FokGap.HarmlessCaps | rsx-book/src/matching.rs:509-530 | the sums are equal if the slot is in zone 0, holds one crossing price, or is used up exactly at the cap |
| FokWitness.StopsShort | rsx-book/src/matching.rs:166-180 | on a slot of cap-many far sells and one near sell, an order for all the pre-check counted stops nine short |
| FokWitness.FokPartiallyFills | rsx-book/src/matching.rs:194-214 | a reachable book on which a fill-or-kill order is filled in part |
| Outcome.BestCrosses | rsx-book/src/matching.rs:98-103 | comparing with the cached best decides whether any order crosses |
| Outcome.BestMoved | rsx-book/src/matching.rs:252-259 | tick or price changed exactly when the best price of the side changed |
| NewOrder.Entry | rsx-book/src/matching.rs:46-135 | the checks before the match give the early verdict of the simple book and the size to fill, which Answers.FailsExactly and Answers.AsksMeans give in the order's own terms |
| NewOrder.SlabPartition | rsx-book/src/slab.rs:112-124 | allocated handles are free or live, never both, the counts add up to `len`, and the slab is exhausted exactly when as many orders rest as it has slots |
| NewOrder.Rest | rsx-book/src/matching.rs:216-237 | the remainder rests as submitted (Answers.InsertedRests) at a handle that was not live, last in its queue, and the book stays valid |
| NewOrder.Conclude | rsx-book/src/matching.rs:165-250 | match limit, expiry, rejection, resting or completion as the simple book decides (Answers.EndsExactly says when), one event; room in the slab matters only to an order that rests |
| NewOrder.ReportBbo | rsx-book/src/matching.rs:252-298 | reports both exact bests and their quantities exactly when a best price moved (Reports.BboExactly) |
| NewOrder.ProcessNewOrder | rsx-book/src/matching.rs:37-260 | orders, positions, events and verdict are those of the simple book, unless the order should rest and the fills have left no slot free, which is decided exactly; at most 65536 events; the book stays valid |
| Laws.QuantityConserved | rsx-book/src/matching.rs:131-250 | fill events sum to what the verdict says was filled and to the drop of the opposite side; the own side grows by what rests |
| Laws.EventsInOrder | rsx-book/src/matching.rs:369-456 | fills of distinct makers, each completion right after the fill that used the maker up, then exactly one outcome, then at most a BBO |
| Laws.FillsAtMakerPrice | rsx-book/src/matching.rs:397-430 | every fill is at the maker's own price, within the limit, for part or all of the maker |
| Laws.ReduceOnlyBounded | rsx-book/src/matching.rs:62-93 | a reduce-only order trades only against its user's position and at most its size |
| Laws.PostOnlyNeverFills | rsx-book/src/matching.rs:95-117 | a post-only order fills nothing, and changes nothing if it would cross |
| Laws.FokAllOrNothing | rsx-book/src/matching.rs:194-214 | a stopped fill-or-kill changes nothing; one that matches is match-limited with what the cap lets it fill exactly when its size lies in the gap of the slot where the cap falls, and is filled completely otherwise; the residual branch is never taken |
| Laws.FokKilledInVain | rsx-book/src/matching.rs:119-129 | an order otherwise fit to match is killed by the pre-check although the match would fill it if and only if its size lies in the gap the other way round |
| Laws.OnlyGtcRests | rsx-book/src/matching.rs:216-237 | only GTC orders rest, with nothing left to trade against, and the book stays uncrossed |
| Answers.OneOutcome | rsx-book/src/matching.rs:26-31 | every call has exactly one outcome event |
| Answers.FailsExactly | rsx-book/src/matching.rs:46-117 | invalid tick, invalid lot, reduce-only failure and post-only stop, each if and only if a condition on price, quantity, position and resting prices holds; nothing but a fill-or-kill order fails otherwise |
| Answers.AsksMeans | rsx-book/src/matching.rs:88-91 | the size to fill is the quantity of a plain order, and for a reduce-only order at most its quantity, at most its position and one of the two |
| Answers.AnswersInFull | rsx-book/src/matching.rs:131-250 | the fills reported and the quantity reported as left make up what the order asked for; a done event's filled quantity is the sum of the fills, and it says filled exactly when nothing is left |
| Answers.EndsExactly | rsx-book/src/matching.rs:165-250 | for an order that reached the match: rests, expires, is match-limited, is filled or is rejected, each if and only if a condition on its time in force, the fills reported and the prices left in the book holds |
| Answers.NamesTheOrder | rsx-book/src/matching.rs:165-250 | the outcome event carries the user and identity submitted |
| Answers.InsertedRests | rsx-book/src/matching.rs:215-236 | an order reported as inserted rests at the reported handle with the side, price and quantity reported and every other field as submitted, younger than all others |
| Answers.StoppedUntouched | rsx-book/src/matching.rs:46-117 | a call stopped by a check leaves book and positions as they were and reports only that |
| Answers.KilledExactly | rsx-book/src/matching.rs:119-129 | a fill-or-kill order that passes the other checks fails if and only if the pre-check counts less than it asks for, and then nothing happens |
| Answers.NoRoomExactly | rsx-book/src/slab.rs:33-47 | an order finds the slab full if and only if it is GTC and passes the checks, at most the cap of makers cross it, they hold less than it asks for, and the orders resting besides them fill the slab |
| Reports.BboExactly | rsx-book/src/matching.rs:252-259 | the call ends in a best-price report if and only if the highest buy or the lowest sell differs from before, none included; the report gives both as they are now, and there is no other |
| Reports.BboQuantity | rsx-book/src/matching.rs:277-298 | the quantity reported with each best price is the sum over all orders resting at it |
| Reports.BookFollowsEvents | rsx-book/src/matching.rs:377-456 | the book afterwards from the events alone: each maker loses exactly what was taken from it and leaves when all is taken, nothing else changes, and only an inserted order is new |
| Reports.FillsOldestFirst | rsx-book/src/matching.rs:375-456 | of two fills reported at one price the first is of the older maker |
| Reports.PositionsFollowEvents | rsx-book/src/user.rs:157-179 | every position moves by the fills reported, up for what was bought and down for what was sold; only users who traded or whose order rests are added |
| Positions.UsersNet | rsx-book/src/user.rs:157-179 | after a call each position has moved by what the user took less what the user's makers gave |
| Positions.FillBalances | rsx-book/src/user.rs:157-179 | a fill leaves the sum of all positions alone, also when taker and maker are one user |
| Positions.NoSaturation | rsx-book/src/user.rs:157-179 | if every position keeps within plus or minus the i64 maximum after gaining or losing all the call trades, the saturating updates are the plain ones |
| MoveFacts.EmptyingMoves | rsx-book/src/migration.rs:111-169 | moving the next order keeps the rest of the old array, the pending queue and arrival order |
| Migration.MoveOrder | rsx-book/src/migration.rs:112-168 | one order is relinked behind the tail of its new level, bitmaps and bests follow |
| Migration.MigrateSingleLevel | rsx-book/src/migration.rs:98-174 | exactly the orders of that old slot move, oldest first, and nothing else |
| Migration.TriggerRecenter | rsx-book/src/migration.rs:22-62 | nothing is lost or duplicated; all orders but those of the middle price's old slot are still to move |
| Migration.CompleteMigrationEager | rsx-book/src/migration.rs:216-225 | every order ends in the active levels and the book is valid; outside a migration nothing changes |
| Migration.RecenterNow | rsx-book/src/migration.rs:234-237 | the same live orders, quantities and arrival numbers under the new map, valid with exact bests |
| Frontier.FrontierStarts | rsx-book/src/migration.rs:42-61 | triggering on an aligned middle price starts the frontier there |
| Frontier.InsideIsActive | rsx-book/src/migration.rs:71-73 | every order priced within the frontier is in the active levels, unchanged |
| Frontier.AdvanceFrontierTo | rsx-book/src/migration.rs:75-87 | the frontier reaches the price, moving only orders not moved before |
| Frontier.ResolveLevel | rsx-book/src/migration.rs:65-69 | afterwards all orders of that price are active; outside a migration nothing changes |
| Frontier.MigrateBatch | rsx-book/src/migration.rs:177-200 | a positive batch shortens the way to go or finishes with the whole book valid and active |
| Frontier.MigrateInBatches | rsx-book/src/migration.rs:177-209 | repeated positive batches end in normal operation with every order active |
| Frontier.RecenterByScript | rsx-book/src/migration.rs:22-209 | after a trigger any script of resolved prices and batches, then batches to the end, leaves the same live orders valid under the new map, and no order ever goes back |
| Frontier.BeyondDone | rsx-book/src/migration.rs:195-198 | a frontier past both ends of the old map leaves nothing behind, zone 4 included |
| Runs.StepSane | rsx-book/src/matching.rs:26-36 | every command keeps the book uncrossed, aligned, positive and with distinct arrivals |
| Runs.DoneIsFilled | rsx-book/src/matching.rs:432-452 | the makers reported done are exactly those filled completely |
| Runs.RunSane | rsx-book/src/matching.rs:26-36 | over every run the book is never crossed, even when the cap stops a match |
| Runs.SingleCompletion | rsx-book/src/matching.rs:26-31 | over every run an order leaves at most once, done or cancelled, never both |
| Runs.NoOrderLost | rsx-book/src/book.rs:295-337 | an order once resting is still resting or has left by one completion or cancel since |
| Runs.RunBalances | rsx-book/src/user.rs:157-179 | over every run the positions of all users together stay what they were |
| Runs.RunFok | rsx-book/src/matching.rs:119-214 | at every step of a run a fill-or-kill order changes nothing, is filled completely, or is match-limited with its size in the gap of the book at that step |
| Runs.HandleKept | rsx-book/src/book.rs:161-251 | over a run an order that still rests is under the handle it had, with every field unchanged but the quantity, which never grows |
| Runs.CancelByName | rsx-book/src/book.rs:323-337 | with names unique over the run, a cancel by the handle and name of an earlier order succeeds if and only if that very order still rests, and then removes only it |
| Histories.RunServed | rsx-book/src/matching.rs:37-260 | every submission of a run is a call of which all of the above holds |
| Histories.Origin | rsx-book/src/book.rs:161-251 | in every state of a run each resting order was there at the start or came from one earlier submission, whose side, price, user, identity, time in force and reduce-only flag it has |
| Histories.CancelSubmitted | rsx-book/src/book.rs:323-337 | for a submission named once, a cancel by the handle reported and the user and identity submitted succeeds if and only if that order still rests, and then removes only it |
| Histories.ReduceSubmitted | rsx-book/src/book.rs:387-413 | a reduction so named shrinks or removes that order exactly when it still rests with more, and otherwise changes nothing |
| Engine.Execute | rsx-book/src/book.rs:89-413 | one command on the order book is one step of the simple book, with the pre-check's count taken from this book; refused only when an order should rest on a full slab |
| Engine.ExecuteAll | rsx-book/src/book.rs:89-413 | a run of orders, cancels, reductions and recenters of any length keeps the book valid and is a run of the simple book; it ends early only at an order that should rest on a full slab |
| Twins.JudgeAlike | rsx-book/src/matching.rs:37-260 | books with the same orders in the same priority give the same verdict and the same share at every position |
| Twins.TwinRuns | rsx-book/src/migration.rs:227-237 | two runs of the same commands on any two maps agree at every step on verdicts, shares, positions and best-price reports, given that their pre-checks counted alike |
| Twins.RunsOfBooks | rsx-book/src/migration.rs:227-237 | for runs of actual books the pre-checks do count alike while the makers crossed by a fill-or-kill order fit the cap, so the runs agree on those orders too |
| Twins.CountedAlike | rsx-book/src/matching.rs:478-595 | within the maker cap the fill-or-kill pre-check counts the same under any two maps |

## Left out

- `user.rs` order counts, idle marking and reclaiming of users: positions are a map from user to net quantity.
- `snapshot.rs`: capture and restore of a whole book.
- `update_config`: a changed tick size without a new map breaks one price per zone-0 slot, so the tick is fixed for the run.
- Timestamps, and the `tif` and reduce-only flags carried by events: no effect on any decision modelled here.
- `staging_levels`: a recycled buffer without logical content; the model allocates a fresh array.
- `should_recenter`: one comparison.
- The bounds of `i64` quantities, totals and positions and of the `u64` sequence: these are unbounded integers here. Where the source narrows a value inside its normal range (`u32` casts in the map, the low 32 bits of the sequence kept in a slot, the saturating step of the bid frontier, the saturating per-side counts) the model does the same.
- 64-bit words are numbers with their binary digits; the bit operations are functions on them.
- Positions.UsersNet: the updates are plain additions where the source saturates at the i64 bounds; Positions.NoSaturation gives when the two are the same.
- Positions.FillBalances: holds for plain additions; a saturated update would not balance.
- Runs.RunBalances: holds for plain additions, as Positions.FillBalances.
- Answers.AnswersInFull: for quantities up to the i64 maximum, as Answers.EndsExactly, Answers.KilledExactly, Answers.AsksMeans and Answers.NoRoomExactly; the source's quantities are i64 values.
- OrderBook.Orderbook.constructor: requires a non-degenerate map, although the source accepts any middle price; on the maps excluded the cached bests can be wrong, as Sawtooth.LostOrderSeen shows.
- Migration.TriggerRecenter: requires a non-degenerate new map, for the same reason.
- Migration.RecenterNow: requires a non-degenerate new map, for the same reason.
- Twins.TwinRuns: fill-or-kill orders are included only where both runs' pre-checks counted the same quantity, which Twins.RunsOfBooks discharges within the maker cap; past the cap the count depends on the map.
- Sawtooth.OrderRecoveredExactly: for middle prices whose products fit an i64 and whose slot total fits a u32.
- Frontier.FrontierStarts: requires a tick-aligned middle price, because otherwise the frontier steps between the prices orders can have.
- Frontier.RecenterByScript: requires a tick-aligned middle price, as Frontier.FrontierStarts.
- A debug assertion that would stop a debug build when a double free or a fill-or-kill residual is detected is not modelled; double frees are excluded by the slab's precondition.
- Gateways, risk, market data, recording, the maker and all user interfaces: outside the book.
