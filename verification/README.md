# Verified model of the marketplace's checkout, catalogue and sign-in rules

This project models, in Dafny, the parts of the marketplace API whose correctness depends on
more than one function: stock holds that expire by the clock alone, transactions that lock and
sweep rows beside each other, a catalogue graph that is merged and split, cursors over a listing
that changes, one-time codes verified concurrently, and the money that follows from all of it.
`dafny verify dfyconfig.toml` checks everything.

## What is modelled

- **Checkout holds.** `Ledger` is the protocol as a state machine over committed states: reserve,
  cancel, both transactions of confirm, stock movements, exchange holds, hand-overs, the stock that
  order cancellations put back, and the clock.
  `Holds` is the one aggregate it is stated with, the units a table of hold rows keeps back.
  `EagerExpiry` compares it with a system in which holds vanish the moment they expire.
  `CheckoutService` is the service itself, statement by statement over mutable tables, each method
  proved to do exactly the ledger's step. `Interleaving` cuts the same transactions into
  statements that run beside each other under row locks, and proves when a whole run has the effect
  of its transactions taken one at a time in commit order: exactly when no confirm sells a hold that
  ran out between its check and its commit. `LockOrder` gives the lock plans one rank and derives the
  absence of deadlock. `HoldLife` says on the rows what each transaction does and who may end a hold,
  `StatementRules` what single statements do.
- **Batched restock.** `Restock` merges mutations, sweeps and writes from one snapshot, and is
  compared with applying the mutations one at a time and with the ledger; `RestockRules` says what it
  accepts in terms of the units really held.
- **Grouping, quote and slots.** `Grouping` decides which branch serves which line, `Quote` reads
  availability, forms groups, resolves the customer's answer and connects both to the ledger's
  reserve, and `Slots` is the delivery calendar with its capacity rule and its slot picker. `QuoteRules`
  and `SlotRules` give their acceptance rules on the rows.
- **Catalogue.** `CanonicalMerge` is the graph of products, variants, offers and offer variants
  under merge, split, review, confirmation and status changes, and `CatalogRules` its acceptance rules.
- **Smaller protocols.** `Browse` (keyset pagination and the facts behind it), `Categories` (the
  ancestor walk), `Otp` (check, token, recovery entry, consume, recover) and `Money` (the charge
  and the refund ledger), with `BrowseRules`, `OtpLimits` and `MoneyRules` beside them.

Comparisons are the code's own: a hold is expired when `expiresAt < now` and live when
`expiresAt > now`. At the instant `expiresAt == now` it is neither, and the results that depend on
this say so: see `Slots.ConfirmKeepsCapacityIff` and `Quote.QuoteThenReserve`.

Where code and comments differ, the model follows the code. The restock comment says that merging
loses no mutation (stock-lock.util.ts:433-439); on a row that does not exist yet the reserved deltas
are lost (`Restock.NewRowLosesReservedDelta`; `Restock.BatchMatchesOneAtATime` says exactly when that
matters, `Restock.VerdictsDifferIff` when the verdicts part). Split's error text says that a variant is
always left behind (canonical-product-merge.service.ts:308-314); a repeated id in the selection defeats
the comparison, and `CanonicalMerge.SplitLeavesSomething` gives the exact condition. The merge comment
treats an offer left on a merged product as a fault (canonical-product-merge.service.ts:83-92); right
after a merge there is none, but a later review or confirmation can create one
(`CanonicalMerge.ReviewMayLinkToMerged`), and `CanonicalMerge.OffMergedIffGuarded` says exactly when
none ever appears. A confirm sells only a hold it has found unexpired (checkout.service.ts:1310-1321),
but the clock goes on before it commits (`Interleaving.LateSaleHappens`); the sale is still covered by
its rows (`Interleaving.LiveConfirmCannotFail`). Recovery is meant to hand back the token already issued
(auth.controller.ts:177-193); where requests of one key overlap it can hand back another
(`Otp.OverlapYieldsTwoTokens`), and `Otp.OneTokenIffClean` says exactly when a code keeps to one token.
Locking the product first is meant to keep review and confirmation out of a split's way
(canonical-product-merge.service.ts:35-51); the lock is picked by an earlier read
(`CanonicalMerge.StaleAcceptanceSpans`, `CanonicalMerge.LinkAsReadKeepsInvIff`). Publication is to follow
review (docs/srs/02-functional-requirements.md:125); a draft that is archived can be published from
there (`CatalogRules.ShelvedDraftCanBePublished`), and `CatalogRules.PublishedWasReviewed` says that this is
the only way around it.

## Conventions

- Database ids are natural numbers where only equality and a total order matter; where the order of
  strings itself matters (lock keys, sort keys) they are strings in code-unit order.
- A transaction that throws leaves the state alone. Time is a number that only grows; outside
  `Interleaving`, all reads of the clock in one transaction see one instant. Money is whole agorot.
- `accepted`, `merges`, `makers` and `receipts` are history variables; no operation reads them
  except that new ids are new. `restored` is the cancelled mark of order items.
- Requests of one key and account may overlap in `Otp`: a claim on a key still in progress after thirty
  seconds is taken over while its first request may be running (idempotency.interceptor.ts:19, 337-367).
- A stock key is branch and variant: composite foreign keys make the vendor a function of the branch.
- A hold row is identified by its reservation and line number. An order made from a delivery slot
  keeps the slot's id.

## Model

| member | source | states |
|---|---|---|
| Holds.HeldSplit | apps/api/src/checkout/stock-lock.util.ts:199-206 | removing any set of hold rows lowers what is held on every key by exactly what those rows held |
| Holds.NewRowsHold | apps/api/src/checkout/checkout.service.ts:845-893 | the rows one reserve writes hold, key by key, exactly what its lines ask for |
| Ledger.StepKeepsInv | apps/api/src/checkout/checkout.service.ts:845-894 | every transaction keeps exact counters, honoured holds, at most one order per reservation, and conservation of stock |
| Ledger.RunKeepsInv | apps/api/src/checkout/checkout.service.ts:845-1449 | the same over any sequence of transactions |
| Ledger.LedgerInvariant | apps/api/src/checkout/checkout.service.ts:845-894 | in every reachable state the cached counter of a row is the sum of its hold rows plus exchange holds, and lies between 0 and the stock |
| Ledger.StockIsConserved | apps/api/src/inventory/inventory.controller.ts:500-574 | in every reachable state stock on hand plus units sold minus units put back by cancellations is the sum of the recorded movements; no more is put back than was sold, so net sales lie between 0 and supply |
| Ledger.PutBackKeepsInv | apps/api/src/orders/branch-order-cancellation.service.ts:365-412 | putting cancelled order items back on the shelf, each at most once, keeps the whole invariant |
| Ledger.AcceptedHoldIsHonoured | apps/api/src/checkout/checkout.service.ts:1302-1321 | in every reachable state an unexpired accepted hold still has all its rows, so confirming it succeeds and sells exactly those |
| Ledger.HonouredHoldCanBeSold | apps/api/src/checkout/checkout.service.ts:1435-1449 | the conditional decrement of an honoured hold can never match zero rows |
| Ledger.SoldAtMostOnce | apps/api/src/checkout/checkout.service.ts:1593-1667 | no reservation is ever turned into two orders, and each order holds what its reservation accepted |
| Ledger.ReleaseKeepsCounters | apps/api/src/checkout/stock-lock.util.ts:199-207 | releasing any rows keeps every counter equal to what is held |
| Ledger.GiveBackKeepsInv | apps/api/src/checkout/checkout.service.ts:1145-1147 | cancelling or expiring a reservation keeps the whole invariant |
| Ledger.HoldKeepsInv | apps/api/src/checkout/checkout.service.ts:845-893 | writing an accepted hold keeps the whole invariant |
| Ledger.SellKeepsInv | apps/api/src/checkout/checkout.service.ts:1435-1449 | selling a hold keeps the whole invariant: counter and stock go down together |
| Ledger.SweptCounterIsLive | apps/api/src/checkout/stock-lock.util.ts:165-208 | after a sweep a row shows as free exactly its stock minus unexpired and exchange holds |
| Ledger.FitsIffDemandAvailable | apps/api/src/checkout/checkout.service.ts:845-860 | the running line-by-line check accepts exactly when each key covers the total demand on it |
| Ledger.ReserveSeesOnlyLiveHolds | apps/api/src/checkout/checkout.service.ts:810-860 | reserve gets its stock exactly when, for every key, stock minus holds not yet expired minus exchange holds covers the demand, whatever unswept holds exist |
| Ledger.DecreaseSeesOnlyLiveHolds | apps/api/src/inventory/inventory.controller.ts:527-559 | a stock decrease is refused only for stock really held |
| Ledger.HandOverKeepsInv | apps/api/src/returns/returns.service.ts:1218-1237 | handing an exchange replacement over keeps the whole invariant |
| HoldLife.NotOnesOwn | apps/api/src/checkout/checkout.service.ts:1142-1144 | cancel and both halves of confirm leave alone a reservation that is missing or another customer's, whatever else is asked |
| HoldLife.OnlyItsOwnerEndsAHold | apps/api/src/checkout/checkout.service.ts:1121-1238 | over any run a reservation leaves the table only in a cancel of its own customer, in a confirm of its own customer while it is unexpired, or, once it has expired, in a failed confirm of its own customer; until then its row stays as written |
| HoldLife.CancelDoes | apps/api/src/checkout/checkout.service.ts:1142-1148 | a cancel by the owner removes the reservation and exactly its rows, expired or not, and lowers each counter by what those rows held |
| HoldLife.ExpiryCheckDoes | apps/api/src/checkout/checkout.service.ts:1225-1238 | confirm goes on with a hold whose end is not before now, and gives an expired one back for good |
| HoldLife.FinalizeDoes | apps/api/src/checkout/checkout.service.ts:1289-1449 | the second transaction accepts exactly the owner's unexpired, non-empty, re-validated reservation and turns exactly its rows into an order, taking them off stock and counter |
| HoldLife.ReserveAcceptsIff | apps/api/src/checkout/checkout.service.ts:810-860 | reserve is accepted exactly when every key it asks for has a row whose stock, less the units of live rows and exchanges, covers all lines on that key together |
| HoldLife.ReserveDoes | apps/api/src/checkout/checkout.service.ts:835-894 | an accepted reserve writes its reservation and one row per line; of the old rows only expired ones on its keys go, and no other column but the counters changes |
| HoldLife.SweepDoes | apps/api/src/checkout/stock-lock.util.ts:188-207 | a sweep removes exactly the rows on its keys whose reservation ended before now |
| HoldLife.MoveDoes | apps/api/src/inventory/inventory.controller.ts:500-574 | an increase is always accepted, a decrease exactly when live rows and exchanges leave that much; the delta goes to one row, made if missing, and is recorded |
| HoldLife.ExchangeDoes | apps/api/src/returns/returns.service.ts:846-862 | an exchange hold takes units exactly when they are free, its release gives them back, its hand-over takes them off the shelf |
| HoldLife.CancelItemsDoes | apps/api/src/orders/branch-order-cancellation.service.ts:365-412 | cancelling order items puts exactly their units back, key by key, and notes them as restored |
| EagerExpiry.LazyStepRefinesEager | apps/api/src/checkout/stock-lock.util.ts:165-208 | one transaction of the lazily swept system and of a system that drops holds as they expire end in the same live state; the answers agree if and only if it is not a cancel of an expired hold of one's own |
| EagerExpiry.LazyRefinesEager | apps/api/src/checkout/checkout.service.ts:845-860 | over whole runs every reserve, confirm and stock movement is decided as if holds vanished the moment they expire |
| EagerExpiry.SweepingIsInvisible | apps/api/src/checkout/stock-lock.util.ts:188-207 | releasing any set of expired rows changes nothing an unexpired hold can see |
| EagerExpiry.SameLiveStep | apps/api/src/checkout/stock-lock.util.ts:165-208 | two states with the same live part take any transaction to states with the same live part, with the same answer except to a cancel |
| EagerExpiry.DroppingForgetsExpired | apps/api/src/checkout/stock-lock.util.ts:188-207 | what remains once expired holds are dropped depends on the live part of the state alone |
| CheckoutService.Store.FindExpiredReservationIds | apps/api/src/checkout/stock-lock.util.ts:65-91 | discovers exactly the reservations with an expired row on one of the keys |
| CheckoutService.Store.LockAndSweepStockRow | apps/api/src/checkout/stock-lock.util.ts:165-208 | releases exactly the expired rows on the key that belong to locked reservations, and returns the row as it then is |
| CheckoutService.Store.LockAndSweepStockRows | apps/api/src/checkout/checkout.service.ts:810-830 | after the loop every key has been swept of all its expired rows, or a key without a row was found |
| CheckoutService.Store.ReleaseReservationHolds | apps/api/src/checkout/checkout.service.ts:1165-1198 | releasing rows one by one equals releasing them all at once, in any order, even if some are already gone |
| CheckoutService.Store.Reserve | apps/api/src/checkout/checkout.service.ts:781-894 | reserve's lock phase and writes do exactly the ledger's reserve step; a refusal leaves everything as it was |
| CheckoutService.Store.CancelReservation | apps/api/src/checkout/checkout.service.ts:1121-1149 | cancel does exactly the ledger's cancel step: it answers that it released exactly for a reservation of the caller's own, and then that reservation alone is gone |
| CheckoutService.Store.ReleaseIfExpired | apps/api/src/checkout/checkout.service.ts:1217-1238 | confirm's first transaction releases an expired hold of the caller's own and commits that before it fails; it goes on exactly for the caller's own unexpired hold |
| CheckoutService.Store.DecrementRow | apps/api/src/checkout/checkout.service.ts:1436-1447 | the conditional update matches exactly when neither column would go below zero |
| CheckoutService.Store.Finalize | apps/api/src/checkout/checkout.service.ts:1289-1449 | confirm's second transaction does exactly the ledger's step: order with all rows, or nothing |
| CheckoutService.Store.CreateMovement | apps/api/src/inventory/inventory.controller.ts:478-574 | a stock movement does exactly the ledger's step, with its direction rule and its refusal |
| CheckoutService.ReleaseTwice | apps/api/src/checkout/checkout.service.ts:1181-1197 | two releases in a row are one release of both sets of rows |
| Interleaving.StatementKeepsSound | apps/api/src/checkout/stock-lock.util.ts:134-208 | every single statement of any transaction, run beside the others, keeps locks exclusive, reads valid and the ledger invariant |
| Interleaving.CommitIsAtomic | apps/api/src/checkout/stock-lock.util.ts:188-207 | whatever ran between its statements, a commit leaves the live holds, stock and orders that the ledger's own step leaves from the same state, and the ledger accepts that step: this fails if and only if it sells a hold that ran out since its check |
| Interleaving.EveryCommitIsAtomic | apps/api/src/checkout/checkout.service.ts:1165-1198 | the same, effect and acceptance, for the next commit in every reachable state |
| Interleaving.SellIsFinalizeIff | apps/api/src/checkout/checkout.service.ts:1310-1321 | a sale is exactly the ledger's second confirm step when the hold is unexpired at commit; the ledger refuses a late one |
| Interleaving.SerializableIffOnTime | apps/api/src/checkout/stock-lock.util.ts:134-208 | an interleaved run ends in the live state of its transactions taken one at a time in commit order if and only if no confirm sold a hold that ran out between its check and its commit; without such a sale the ledger accepts each of them |
| Interleaving.LateSaleHappens | apps/api/src/checkout/checkout.service.ts:1310-1449 | such a run exists from the empty start |
| Interleaving.CommitKeepsLedger | apps/api/src/checkout/checkout.service.ts:1165-1198 | every commit keeps the ledger invariant |
| Interleaving.CommitLeavesOthersAlone | apps/api/src/checkout/stock-lock.util.ts:180-196 | a commit changes nothing under another transaction's locks |
| Interleaving.DropIsGiveBack | apps/api/src/checkout/checkout.service.ts:1181-1197 | what an owner deleted row by row before dropping its reservation is all of it, once |
| Interleaving.RowLeavesOnce | apps/api/src/checkout/checkout.service.ts:1183-1188 | a commit takes out of the counters exactly the rows it removes, and brings none back |
| Interleaving.ReleasedExactlyOnce | apps/api/src/checkout/stock-lock.util.ts:134-208 | at every point of every interleaved run each row ever written has left its counter once if it is gone and never if it is there, and counters are the sums of the surviving rows |
| Interleaving.LiveConfirmCannotFail | apps/api/src/checkout/checkout.service.ts:1302-1321 | a confirm that found its hold live under lock can always finish, with exactly the accepted rows, whatever runs beside it |
| StatementRules.AskedIsCommitted | apps/api/src/checkout/checkout.service.ts:835-894 | what a call asks for is what its commit does, from the state as it is then and whatever ran in between: the ledger's transaction with the very arguments of the call, failing if and only if it sells a hold that has run out |
| StatementRules.OnlyItsOwnerTakesAHold | apps/api/src/checkout/checkout.service.ts:1142-1144 | in every reachable state of the interleaved system, a commit that takes a reservation out of the table is one of its own customer's |
| StatementRules.SweptReserveDecides | apps/api/src/checkout/stock-lock.util.ts:188-207 | a reserve that has taken every expired row on its keys, and whatever others, finds its lines to fit exactly when the ledger's reserve would be accepted from the same committed state |
| StatementRules.SweepTakes | apps/api/src/checkout/stock-lock.util.ts:188-196 | a sweep takes every expired row on its key that belongs to a reservation it asked to lock, and no other |
| StatementRules.ReleasingTakes | apps/api/src/checkout/checkout.service.ts:1181-1188 | an owner's delete of a row it read takes that row, once |
| LockOrder.OneVendorOrdersAgree | apps/api/src/common/availability.util.ts:33-39 | within one vendor, sorting by vendor:branch:variant and by branch:variant is the same order |
| LockOrder.OrderByMatchesKeyOrder | apps/api/src/checkout/stock-lock.util.ts:546-551 | for ids of one length the database's ORDER BY branch, variant is the order of the joined key |
| LockOrder.SortedIsAscending | apps/api/src/checkout/stock-lock.util.ts:47-50 | sorting keeps the entries and puts them in code-unit order |
| LockOrder.BeforeAtFirstDifference | apps/api/src/checkout/stock-lock.util.ts:47-50 | code-unit order: at the first place where two strings differ the smaller unit decides, and a prefix comes first |
| LockOrder.BelowIsStrictTotalOrder | apps/api/src/common/branch-operational-lock.util.ts:23-37 | the lock rank is a strict total order |
| LockOrder.ReservePlanClimbs | apps/api/src/checkout/checkout.service.ts:584-833 | reserve takes its locks in rising rank, whatever branches, reservations, vendors, rows and windows it touches; which locks these are is `ReserveLocksExactly` |
| LockOrder.ConfirmPlanClimbs | apps/api/src/checkout/checkout.service.ts:1263-1449 | so does confirm |
| LockOrder.ReleasePlanClimbs | apps/api/src/checkout/checkout.service.ts:1134-1187 | so do cancel and the release of an expired hold |
| LockOrder.DecreasePlanClimbs | apps/api/src/checkout/stock-lock.util.ts:134-152 | so does a stock decrease |
| LockOrder.RestockPlanClimbs | apps/api/src/checkout/stock-lock.util.ts:505-551 | so does a restock of one vendor's offers |
| LockOrder.ReachableIsExclusive | apps/api/src/checkout/stock-lock.util.ts:28-51 | no lock is ever held twice at once |
| LockOrder.NoWaitCycle | apps/api/src/checkout/checkout.service.ts:722-833 | no reachable state of such transactions has a circle of waits |
| LockOrder.SomeoneCanGoOn | apps/api/src/checkout/stock-lock.util.ts:403-427 | while any transaction is left, one of them can take its next lock or finish |
| LockOrder.ServicesNeverDeadlock | apps/api/src/checkout/checkout.service.ts:722-833 | both for the services themselves: however reserves, confirms, cancels, expiry releases, stock decreases and one-vendor restocks run beside each other |
| LockOrder.ReserveLocksExactly | apps/api/src/checkout/checkout.service.ts:722-833 | reserve locks the status of its branches, the expired reservations, its vendors, the row vendor:branch:variant of each stock ref and its windows: exactly these |
| LockOrder.ConfirmLocksExactly | apps/api/src/checkout/checkout.service.ts:1263-1449 | confirm locks exactly its user, its reservation, its vendors and the row of each of its stock refs |
| LockOrder.ReleaseLocksExactly | apps/api/src/checkout/checkout.service.ts:1134-1187 | cancel and the release of an expired hold lock exactly the reservation and the row of each of its stock refs |
| LockOrder.DecreaseLocksExactly | apps/api/src/checkout/stock-lock.util.ts:134-152 | a stock decrease locks exactly the expired reservations and its one row |
| LockOrder.RestockLocksExactly | apps/api/src/checkout/stock-lock.util.ts:505-551 | a restock locks exactly its advisory keys, the expired reservations and its rows |
| LockOrder.TakenInOneOrder | apps/api/src/checkout/checkout.service.ts:722-833 | every service takes its locks class by class in one order, and within a class in code-unit order |
| LockOrder.NoRowInCommon | apps/api/src/checkout/checkout.service.ts:810-830 | however the services run beside each other, two that hold all their locks work on no common stock row, no common reservation and no common window |
| Restock.Normalize | apps/api/src/checkout/stock-lock.util.ts:455-486 | merging leaves one mutation per target carrying the sums and the union of siblings, and fails exactly when a target has two vendors |
| Restock.CollectKeys | apps/api/src/checkout/stock-lock.util.ts:492-504 | locks exactly the targets and their siblings |
| Restock.WriteTarget | apps/api/src/checkout/stock-lock.util.ts:570-629 | sweeps and writes one target in a single update from the snapshot, or creates it, exactly as one mutation alone would |
| Restock.LockOffersWideForRestock | apps/api/src/checkout/stock-lock.util.ts:451-641 | the batch is accepted exactly when no target has two vendors and every resulting row is legal; it then leaves the state the row-by-row description gives, writes no sibling, and reports each target's outcome; a refusal changes nothing |
| Restock.OneAtATimeIsSerial | apps/api/src/checkout/stock-lock.util.ts:556-638 | applying mutations one at a time gives snapshot minus swept holds plus the sum of deltas, row by row |
| Restock.BatchMatchesOneAtATime | apps/api/src/checkout/stock-lock.util.ts:461-640 | whenever every single step is accepted so is the batch, and the final states are equal if and only if on every row that did not exist the reserved deltas after the first mutation add up to nothing |
| Restock.BatchIgnoresOrder | apps/api/src/checkout/stock-lock.util.ts:433-440 | the order of the mutations makes no difference to verdict or result |
| Restock.NewRowLosesReservedDelta | apps/api/src/checkout/stock-lock.util.ts:610-629 | the case where they differ: a created row drops reserved deltas |
| Restock.OneAtATimeAcceptsIff | apps/api/src/checkout/stock-lock.util.ts:556-638 | mutations one at a time are all accepted if and only if each leaves its row legal in the order given |
| Restock.VerdictsDifferIff | apps/api/src/checkout/stock-lock.util.ts:461-486 | the batch alone is accepted if and only if some mutation on the way would leave an illegal row while every final row is legal; one at a time alone if and only if only a vendor conflict stands against the batch |
| Restock.MergingAcceptsMore | apps/api/src/checkout/stock-lock.util.ts:461-486 | such a batch: five down and five up on a row of three |
| Restock.TotalsAreTrue | apps/api/src/checkout/stock-lock.util.ts:561-568 | with siblings listed once, the target not among them and none of them written, before and after are the true offer-wide totals around the write |
| Restock.RestockIsMovement | apps/api/src/inventory/inventory.controller.ts:508-526 | a restock from the stock screen is the ledger's movement step |
| Restock.ReplacementLegIsHandOver | apps/api/src/returns/returns.service.ts:1218-1226 | the replacement leg of an exchange is the ledger's hand-over step |
| Restock.CancellationIsBatch | apps/api/src/orders/branch-order-cancellation.service.ts:371-401 | a cancellation's batch is never refused and is the ledger's step, apart from the note on the items |
| Restock.CancelItems | apps/api/src/orders/branch-order-cancellation.service.ts:371-412 | adds up the items key by key, restocks them in one batch and so does exactly the ledger's cancellation step |
| RestockRules.OneMutationDoes | apps/api/src/checkout/stock-lock.util.ts:570-629 | one mutation makes a missing row unless units are to be taken from it, and gives an existing, swept row both deltas exactly if what live rows and exchanges keep back then lies between nothing and the quantity |
| RestockRules.BatchAcceptsIff | apps/api/src/checkout/stock-lock.util.ts:461-629 | a batch is accepted exactly when no row is named with two vendors and, target by target, the sums of its deltas leave what is kept back between nothing and the quantity |
| RestockRules.BatchWrites | apps/api/src/checkout/stock-lock.util.ts:556-638 | an accepted batch sweeps its targets, gives each both its sums and leaves every other row and hold alone |
| Grouping.GroupOneVendor | apps/api/src/checkout/checkout-grouping.util.ts:77-174 | produces the one grouping the rules allow: together at all fully covering branches in age order, or apart at each line's best branch |
| Grouping.GroupByVendorAndBranch | apps/api/src/checkout/checkout-grouping.util.ts:176-203 | groups every vendor of the cart once, each by the rules for one vendor |
| Grouping.FullyCovering | apps/api/src/checkout/checkout-grouping.util.ts:84-98 | finds exactly the branches that cover every line |
| Grouping.Assign | apps/api/src/checkout/checkout-grouping.util.ts:129-149 | picks a branch with enough such that no other with enough has more stock, or as much and is older, or as much and as old with a smaller id; none exactly when none has enough |
| Grouping.SortBranches | apps/api/src/checkout/checkout-grouping.util.ts:58-69 | sorts branches by creation time and id, losing none |
| Grouping.GroupedIsPartition | apps/api/src/checkout/checkout-grouping.util.ts:107-173 | every cart line is in exactly one group or unavailable, once |
| Grouping.OfferedBranchesCover | apps/api/src/checkout/checkout-grouping.util.ts:91-112 | every branch offered for a group covers each of its lines |
| Grouping.TogetherIffCovered | apps/api/src/checkout/checkout-grouping.util.ts:100-115 | an unfragmented group is formed exactly when some branch covers all lines, and offers exactly those branches |
| Grouping.UnavailableIffUncovered | apps/api/src/checkout/checkout-grouping.util.ts:129-139 | a line is unavailable exactly when no branch has enough of it |
| Grouping.SplitLinesGoWhereStockIsMost | apps/api/src/checkout/checkout-grouping.util.ts:140-148 | once fragmented, each served line sits at a branch that has enough, and no branch with enough has more stock, or as much and is older, or as much and as old with a smaller id; no branch gets two groups |
| Grouping.OldestBranchFirst | apps/api/src/checkout/checkout-grouping.util.ts:58-69 | the branches of a group are offered oldest first, then by id, and so are the groups of a split cart by their branch |
| Grouping.CartOrderIsKept | apps/api/src/checkout/checkout-grouping.util.ts:151-171 | inside every group, and among the unavailable, lines stand as in the cart |
| Grouping.ListOrderDoesNotMatter | apps/api/src/checkout/checkout-grouping.util.ts:140-147 | groups, branch order and unavailable lines do not depend on the order of the availability lists |
| Grouping.SortedOnce | apps/api/src/checkout/checkout-grouping.util.ts:62-68 | two sorted lists of the same entries are the same list |
| Quote.LiveReservedByKey | apps/api/src/common/availability.util.ts:57-78 | the accumulating loop gives every key the sum of its live hold rows |
| Quote.BuildAvailabilityMap | apps/api/src/checkout/checkout.service.ts:431-502 | lists, for each variant asked for, exactly the open branches with a stock row, each once, with stock minus live holds |
| Quote.MaxSingleBranchAvailable | apps/api/src/common/availability.util.ts:112-125 | the largest quantity any one branch can supply, never below zero |
| Quote.CapIsWhatOneBranchCovers | apps/api/src/common/availability.util.ts:103-111 | a line can be placed whole at some branch exactly when it stays within that cap |
| Quote.QuoteShowsAvailable | apps/api/src/checkout/checkout.service.ts:415-430 | what quote shows is what reserve has free, plus exchange holds, plus holds ending at this very instant |
| Quote.ResolveGroups | apps/api/src/checkout/checkout.service.ts:532-720 | rejects duplicate branches, duplicate items, unknown items and then the first faulty group, in that order, and otherwise yields every line |
| Quote.ProposeGroups | apps/api/src/checkout/checkout.service.ts:256-268 | quote's proposal is the grouping of the availability it read |
| Quote.QuoteGroupsAreServed | apps/api/src/checkout/checkout.service.ts:265-268 | all groups of a quote have distinct suggested branches, disjoint items of one vendor each, and branches that cover them |
| Quote.QuoteThenReserve | apps/api/src/checkout/checkout.service.ts:532-855 | reserving every proposed group at its suggested branch from the same state is never refused for duplicates, unknown items, unknown or closed branches or foreign vendors; stock is granted if and only if each line fits beside exchange holds and holds ending this instant, hence always when there are none |
| Quote.ReserveSuggestions | apps/api/src/checkout/checkout.service.ts:508-894 | the same as one call: only pickup at a branch without a counter, a subtotal below the branch minimum or a delivery without a slot can still be refused |
| QuoteRules.QuoteShows | apps/api/src/checkout/checkout.service.ts:431-502 | for a variant asked about a quote shows exactly the approved, unarchived branches in none of their closures with a stock row, with the stock less the units of holds that end later than now |
| QuoteRules.GroupIsTakenIff | apps/api/src/checkout/checkout.service.ts:604-712 | a group is taken exactly when its branch takes orders, all its items are that branch's vendor's, and a delivery comes with address and slot or a pickup is from a physical branch and reaches its minimum |
| QuoteRules.WhyAGroupIsRefused | apps/api/src/checkout/checkout.service.ts:604-712 | otherwise the first reason in this order is given |
| QuoteRules.FirstRefusedGroup | apps/api/src/checkout/checkout.service.ts:584-720 | the refusal of several groups is that of the first refused one |
| QuoteRules.LinesFollowItems | apps/api/src/checkout/checkout.service.ts:584-720 | one line for each item asked for, in order, with the branch and payment of its group and the cart's variant, quantity and price |
| Slots.NeverOverbooked | apps/api/src/checkout/checkout.service.ts:1025-1084 | over any run of reserve, confirm, late confirm, cancel, reschedule, conversion to pickup, window and exception changes in which what was not counted still fits, no window is booked beyond its capacity on any date, and a branch's windows never overlap |
| Slots.StepKeepsInv | apps/api/src/checkout/checkout.service.ts:1051-1072 | each of these steps keeps that, unless a confirm writes slots no count had seen where they do not fit, or an exception cuts a booked date |
| Slots.ReserveKeepsInv | apps/api/src/checkout/checkout.service.ts:895-908 | a reserve with several delivery groups keeps every date within capacity |
| Slots.FinishBooks | apps/api/src/checkout/checkout.service.ts:1551-1557 | the writes of a confirm, whenever they come, add to a date's bookings exactly the slots no count had seen |
| Slots.FinishKeepsCapacityIff | apps/api/src/checkout/checkout.service.ts:1310-1557 | the writes of a confirm that read its slots and passed its check earlier, some of them perhaps cleared away since, keep capacity if and only if the slots no count sees any more still fit |
| Slots.RunningHoldFits | apps/api/src/checkout/checkout.service.ts:1051-1060 | a hold still running is counted in full, so confirming it never needs room |
| Slots.ConfirmKeepsCapacityIff | apps/api/src/checkout/checkout.service.ts:1310-1321 | a confirm at one instant keeps capacity if and only if it is refused or the slots whose hold ends this very instant still fit |
| Slots.ConfirmAtTheInstantCanOverbook | apps/api/src/checkout/checkout.service.ts:1056-1072 | the failing case: a slot whose hold ends now is given away again, and both are confirmed |
| Slots.TwoDeliveriesForOnePlace | apps/api/src/checkout/checkout.service.ts:1056-1072 | a run from the empty calendar that gets there |
| Slots.RescheduleKeepsInv | apps/api/src/orders/branch-order-reschedule.service.ts:130-157 | moving an order, judged without itself, keeps every date within capacity |
| Slots.ConvertKeepsInv | apps/api/src/orders/branch-order-address-change.service.ts:210-221 | converting to pickup or closing an order never overbooks |
| Slots.UpdateWindowKeepsInv | apps/api/src/delivery-windows/delivery-windows.controller.ts:362-393 | a window is only changed while nothing live is booked on it, so capacity and non-overlap are kept |
| Slots.CreateWindowKeepsInv | apps/api/src/delivery-windows/delivery-windows.controller.ts:294-319 | a new window overlaps none of the branch's windows of its day |
| Slots.ExceptionKeepsCapacityIff | apps/api/src/delivery-windows/delivery-windows.controller.ts:505-514 | adding or removing a dated exception is safe if and only if that date's bookings fit the new capacity |
| Slots.Calendar.CheckPlace | apps/api/src/checkout/checkout.service.ts:993-1072 | passes only a window of the branch, a date within three days on the window's day, and no closed date; capacity and the order of the errors are those of `SlotRules` |
| Slots.Calendar.ReserveDeliverySlot | apps/api/src/checkout/checkout.service.ts:927-1085 | takes a place exactly when the checks pass, dropping only expired slots |
| Slots.Calendar.Reserve | apps/api/src/checkout/checkout.service.ts:895-908 | all delivery groups of a reserve get their slots, or none does |
| Slots.Calendar.Confirm | apps/api/src/checkout/checkout.service.ts:1421-1423 | every slot of the reservation becomes an order at its place |
| Slots.Calendar.Reschedule | apps/api/src/orders/branch-order-reschedule.service.ts:58-188 | moves the order exactly when the checks without it pass |
| Slots.Calendar.UpdateWindow | apps/api/src/delivery-windows/delivery-windows.controller.ts:348-393 | changes the window exactly when no active order, no live slot and no overlap stand in the way |
| Slots.Calendar.ComputeAvailableSlots | apps/api/src/checkout/slot-availability.util.ts:43-126 | lists exactly the places whose window, date, closure and capacity checks reserve would pass now, each once, with what is left, in date and time order |
| SlotRules.PlaceIsFreeIff | apps/api/src/checkout/checkout.service.ts:993-1072 | a place is free for a branch exactly when the window is that branch's, the date is one of the three offered and falls on the window's day, the date is not closed, and running holds and standing orders leave room |
| SlotRules.WhyAPlaceIsRefused | apps/api/src/checkout/checkout.service.ts:993-1072 | which of the four refusals it is |
| SlotRules.NothingIsBookedWhereClosed | apps/api/src/checkout/checkout.service.ts:1030-1035 | no reserve and no reschedule adds a slot or an order at a place closed at that moment; one that asks for it changes nothing |
| SlotRules.ReserveAcceptsIff | apps/api/src/checkout/checkout.service.ts:895-908 | a reserve with several deliveries gets all its slots exactly when each place is open to its branch and has room after running holds, standing orders and the reserve's own earlier deliveries there |
| SlotRules.ReserveWrites | apps/api/src/checkout/checkout.service.ts:1037-1085 | it writes its reservation and slots, and of the old slots only expired ones go, at places it asks for |
| SlotRules.ConfirmWrites | apps/api/src/checkout/checkout.service.ts:1310-1557 | a confirm is refused after the hold's end; otherwise exactly the slots of its reservation become orders at their places |
| SlotRules.WindowChangesIff | apps/api/src/delivery-windows/delivery-windows.controller.ts:294-393 | a window is created or changed exactly when it is not empty and meets none of the branch's other windows of its day, and, to change it, no standing order and no running hold is on it |
| SlotRules.NeverOverbookedOnRows | apps/api/src/checkout/checkout.service.ts:1051-1072 | over the admitted runs running holds and standing orders of a date fit its override or its window's capacity, and the windows of one branch and day end before the next starts |
| SlotRules.PickerShows | apps/api/src/checkout/slot-availability.util.ts:43-126 | a listed slot is of the branch, open, on its window's day, with the window's hours and at least one delivery left; the list runs by date and start |
| CanonicalMerge.NoOfferSpansTwoProducts | apps/api/src/matching/canonical-product-merge.service.ts:212-225 | in every catalogue reachable by operations that each run as one step, two linked items of one offer belong to one product |
| CanonicalMerge.LinkAsReadKeepsInvIff | apps/api/src/matching/match-review.controller.ts:343-370 | an acceptance that writes what it read earlier keeps every offer within one product if and only if the variant still belongs to the product read |
| CanonicalMerge.CoveredAcceptanceIsSafe | apps/api/src/offers/vendor-offers.controller.ts:1563-1619 | if the product locked is the one read under that lock, the write is safe whatever runs in between |
| CanonicalMerge.StaleAcceptanceSpans | apps/api/src/matching/match-review.controller.ts:295-317 | a run of two splits around an acceptance that locked another product, after which an offer spans two products |
| CanonicalMerge.StepKeepsInv | apps/api/src/matching/canonical-product-merge.service.ts:145-225 | creation, merge, split, review, confirmation and status changes keep links, chains and offers consistent |
| CanonicalMerge.MergeKeepsInv | apps/api/src/matching/canonical-product-merge.service.ts:188-225 | a merge keeps the catalogue invariant |
| CanonicalMerge.SplitKeepsInv | apps/api/src/matching/canonical-product-merge.service.ts:333-382 | a split keeps the catalogue invariant |
| CanonicalMerge.SplitMovesWholeOffers | apps/api/src/matching/canonical-product-merge.service.ts:333-359 | once the span check passes, an item's offer moves exactly when the item's variant does |
| CanonicalMerge.DecideKeepsInv | apps/api/src/matching/match-review.controller.ts:343-383 | a match review decision keeps the catalogue invariant |
| CanonicalMerge.ConfirmMatchKeepsInv | apps/api/src/offers/vendor-offers.controller.ts:1590-1619 | a match confirmation keeps the catalogue invariant |
| CanonicalMerge.MergeMovesOffers | apps/api/src/matching/canonical-product-merge.service.ts:208-225 | after a merge the survivor's offers are the union of both products', the loser has none, others are untouched |
| CanonicalMerge.MergePreservesAttributes | apps/api/src/matching/canonical-product-merge.service.ts:149-207 | every item keeps the structural attributes it was matched to, and none stays on a loser variant |
| CanonicalMerge.SplitPartitionsOffers | apps/api/src/matching/canonical-product-merge.service.ts:361-382 | after a split the source's offers are the disjoint union of the two products'; links and attributes are untouched |
| CanonicalMerge.SplitLeavesSomething | apps/api/src/matching/canonical-product-merge.service.ts:308-314 | an accepted split leaves the source a variant if and only if the selection names fewer different variants than the source has; a selection without repeats always does |
| CanonicalMerge.SplitWithRepeatTakesAll | apps/api/src/matching/canonical-product-merge.service.ts:308-314 | a selection naming every variant is accepted if and only if it names one twice, and the split then takes everything |
| CanonicalMerge.StepStaysOffMergedIff | apps/api/src/matching/canonical-product-merge.service.ts:83-92 | one operation keeps offers off merged products if and only if it is not an open acceptance, by review or confirmation, of a variant of a merged product for an unmatched offer |
| CanonicalMerge.OffMergedIffGuarded | apps/api/src/offers/vendor-offers.controller.ts:1590-1619 | over any run no offer is ever on a merged product if and only if every acceptance for an unmatched offer names a variant of a standing product |
| CanonicalMerge.ReviewMayLinkToMerged | apps/api/src/matching/match-review.controller.ts:343-370 | a run from the empty catalogue in which an accepted proposal, by review or by confirmation, puts an offer on a merged product |
| CanonicalMerge.TransitionKeepsInv | apps/api/src/matching/canonical-product-state-machine.ts:19-32 | a status transition neither enters nor leaves the merged status |
| CanonicalMerge.MergedForGood | apps/api/src/matching/canonical-product-merge.service.ts:109-120 | a merged product stays merged into the same survivor however the run goes on |
| CanonicalMerge.Survivor | apps/api/src/matching/canonical-product-merge.service.ts:208-211 | following mergedIntoId from any product ends, at one that is not merged |
| CanonicalMerge.SurvivingVariant | apps/api/src/matching/canonical-product-merge.service.ts:193-198 | following mergedIntoVariantId from any variant ends, at one that is not merged |
| CanonicalMerge.Store.PairVariants | apps/api/src/matching/canonical-product-merge.service.ts:149-177 | pairs every loser variant with its one match, and fails exactly when some variant has none or several |
| CanonicalMerge.Store.MergeProducts | apps/api/src/matching/canonical-product-merge.service.ts:58-253 | merge, with its checks in order and no write before the last of them |
| CanonicalMerge.Store.SplitProduct | apps/api/src/matching/canonical-product-merge.service.ts:255-406 | split, with its checks in order and no write before the last of them |
| CanonicalMerge.Store.Buckets | apps/api/src/matching/canonical-product-merge.service.ts:333-348 | finds exactly the offers that move and those that would span |
| CanonicalMerge.Store.DecideCandidate | apps/api/src/matching/match-review.controller.ts:310-384 | a decision, with the sibling candidates it declines |
| CanonicalMerge.Store.ConfirmProposal | apps/api/src/offers/vendor-offers.controller.ts:1558-1619 | a confirmation or rejection of the exact-match proposal |
| CatalogRules.MergeIsAcceptedIff | apps/api/src/matching/canonical-product-merge.service.ts:58-187 | a merge is accepted exactly for two different standing products when each variant of the loser has exactly one variant of the survivor with its attributes; otherwise the first reason counts |
| CatalogRules.MergeWrites | apps/api/src/matching/canonical-product-merge.service.ts:188-225 | the loser is merged into the survivor, each of its variants into its twin, every item linked to one follows, and exactly the offers with an item linked to either product belong to the survivor |
| CatalogRules.SplitIsAcceptedIff | apps/api/src/matching/canonical-product-merge.service.ts:283-359 | a split is accepted exactly for a standing product and a non-empty list of its own variants with not as many entries as it has variants, when no offer has items linked to both sides |
| CatalogRules.SplitWrites | apps/api/src/matching/canonical-product-merge.service.ts:361-382 | a new draft gets the selected variants and exactly the offers with an item linked to one of them |
| CatalogRules.DecideDoes | apps/api/src/matching/match-review.controller.ts:310-384 | only an open candidate of that item is decided; an approval needs an offer without a product or on the variant's, links the item and closes exactly the item's other open candidates |
| CatalogRules.ConfirmDoes | apps/api/src/offers/vendor-offers.controller.ts:1558-1619 | a pending proposal is answered once, by the same rule for the offer |
| CatalogRules.StatusChangesIff | apps/api/src/matching/canonical-product-lifecycle.service.ts:38-62 | the six status changes there are, review only with a variant and publication only unrestricted |
| CatalogRules.PublishedWasReviewed | apps/api/src/matching/canonical-product-state-machine.ts:19-25 | over any run a published product has been under review, unless it was archived straight from draft |
| CatalogRules.ShelvedDraftCanBePublished | apps/api/src/matching/canonical-product-state-machine.ts:19-25 | that exception is needed: from every reachable catalogue any draft can be archived and then published without review and without a variant |
| Browse.CompareKeys | apps/api/src/discovery/discovery-browse.service.ts:266-277 | compares any two keys as the code does, forged shapes included; on keys of one shape negative, zero or positive exactly as the first comes before, equals or follows the second |
| Browse.ComparisonIsOrder | apps/api/src/discovery/discovery-browse.service.ts:266-277 | on keys of one shape the comparison is the strict total order |
| Browse.KeyTransitive | apps/api/src/discovery/discovery-browse.service.ts:266-277 | the key order is transitive on keys of one shape |
| Browse.KeyTotal | apps/api/src/discovery/discovery-browse.service.ts:266-277 | any two different keys of one shape are ordered |
| Browse.KeyIrreflexive | apps/api/src/discovery/discovery-browse.service.ts:266-277 | no key comes before itself |
| Browse.KeysComparable | apps/api/src/discovery/discovery-browse.service.ts:244-264 | keys of one query have one shape and are equal only for the same product |
| Browse.Order | apps/api/src/discovery/discovery-browse.service.ts:94-113 | the sorted listing has exactly the matching products, keys strictly rising |
| Browse.TakePage | apps/api/src/discovery/discovery-browse.service.ts:114-143 | a page is what follows the cursor, and a next cursor comes back exactly while more is left |
| Browse.BrowsePage | apps/api/src/discovery/discovery-browse.service.ts:76-148 | a request refuses a cursor of another query or without a key and otherwise cuts its page from the query's listing, whatever key the cursor holds |
| Browse.ListingIgnoresOrder | apps/api/src/discovery/discovery-browse.service.ts:111-113 | the sorted listing is the same in whatever order the products are read |
| Browse.PageIsInterval | apps/api/src/discovery/discovery-browse.service.ts:114-119 | a page holds exactly the rows past its cursor and not past the next |
| Browse.PagesAreTheListing | apps/api/src/discovery/discovery-browse.service.ts:110-119 | following the cursor through an unchanged listing gives the listing: no repeat, no gap |
| Browse.ShownExactlyOnce | apps/api/src/discovery/discovery-browse.service.ts:65-68 | a product listed with an unchanged key throughout is shown on exactly one page, once, whatever is added, removed or re-priced between requests |
| Browse.BuildCard | apps/api/src/discovery/comparison.service.ts:275-357 | the card's lowest price, store count and discounted store count are the aggregates over the eligible offers; no card exactly without offers |
| Browse.SortedByWhatIsShown | apps/api/src/discovery/discovery-browse.service.ts:215-223 | the figures a listing is sorted and filtered by are the ones its cards show |
| BrowseRules.KeysOrderProducts | apps/api/src/discovery/discovery-browse.service.ts:233-264 | keys compare as the products do: more stores first under trend, then the chosen order of price or discounting stores, then the newer, then the greater id |
| BrowseRules.ListingMeans | apps/api/src/discovery/discovery-browse.service.ts:94-113 | a query's listing is the products whose text matches, with a discount or more than one store if the filter asks for it, each once, each before all it comes first of |
| BrowseRules.PageIsFull | apps/api/src/discovery/discovery-browse.service.ts:114-143 | a page has no more rows than asked for; with a next cursor, its own last key, it is full, and without one nothing is left behind it |
| BrowseRules.CardShows | apps/api/src/discovery/comparison.service.ts:275-357 | the card's offer is in stock if any is and none is cheaper; ties go to the older store, then the smaller id; stores and discounting stores are counted once each |
| BrowseRules.DigitsAreDecimal | apps/api/src/discovery/discovery-browse.service.ts:266-277 | a number compared as text is its decimal numeral |
| Categories.Tree.WouldCreateCycle | apps/api/src/catalog/categories.controller.ts:177-209 | ends on every parent relation, corrupt ones included, and answers true exactly when the category is the proposed parent or one of its ancestors |
| Categories.Tree.UpdateCategory | apps/api/src/catalog/categories.controller.ts:244-278 | re-parents exactly when both exist and no cycle would close |
| Categories.Tree.CreateCategory | apps/api/src/catalog/categories.controller.ts:104-144 | creates exactly when the parent exists |
| Categories.ReparentKeepsForestIff | apps/api/src/catalog/categories.controller.ts:262-268 | moving a category keeps the relation acyclic if and only if it is not reached from its new parent |
| Categories.AlwaysAForest | apps/api/src/catalog/categories.controller.ts:220-278 | over any run of creations and moves no category becomes its own ancestor |
| Categories.ReachedIffPath | apps/api/src/catalog/categories.controller.ts:177-209 | a category is reached from another exactly when a chain of parents leads from the one to the other |
| Categories.UpdateDoes | apps/api/src/catalog/categories.controller.ts:244-278 | an update moves the category exactly when it and the new parent exist and no chain of parents leads from the new parent to it; which refusal comes first |
| Otp.OneWinnerPerCode | apps/api/src/auth/auth.controller.ts:171-266 | over any interleaving of requests, guesses, crashes and retries a code serves at most one idempotency key |
| Otp.TokensAreOnesOwn | apps/api/src/auth/auth.controller.ts:193-208 | a token handed out, first time or recovered, was created for that code under that key |
| Otp.ConsumeMeansNoGuessSince | apps/api/src/auth/otp.service.ts:167-185 | a consume that matches proves that no wrong guess was counted since its check and the code had not run out |
| Otp.RecoveryIsForTheWinner | apps/api/src/auth/otp.service.ts:207-227 | once a key is found to have consumed a code, in no later state does a request of another key find that code consumed by its own |
| Otp.RetryRecoversTheToken | apps/api/src/auth/auth.controller.ts:193-249 | from a request's entry on, through its consume, its crash and anything else, a retry of the key that recovers the code gets that very token, made for that code and key, unless the entry was dropped or overwritten under the same key |
| Otp.StepKeepsOneIff | apps/api/src/auth/auth.controller.ts:228-249 | a step keeps at most one token per code out or on its way out if and only if no consume matches past another request's entry and no entry is written past a different token of the winner |
| Otp.OneTokenIffClean | apps/api/src/auth/auth.controller.ts:171-266 | over any run from the start at most one token per code is ever out or on its way out if and only if every step is clean in that sense |
| Otp.OneTokenPerCode | apps/api/src/auth/auth.controller.ts:171-266 | two responses for one code carry different tokens only if some step was not clean |
| Otp.TwoBorneTwoReceipts | apps/api/src/auth/auth.controller.ts:193-208 | and once a step was not, the run can go on so that both tokens are handed out |
| Otp.OneTokenWithoutOverlap | apps/api/src/common/idempotency/idempotency.interceptor.ts:280-297 | one sufficient case: no two requests of one key and account overlap |
| Otp.OverlapYieldsTwoTokens | apps/api/src/common/idempotency/idempotency.interceptor.ts:337-367 | a run, of two requests of one key that overlap as a taken-over claim lets them, in which one code yields two tokens |
| Otp.StepKeepsInv | apps/api/src/auth/phone-verification.service.ts:71-90 | every statement keeps recovery entries, open requests and receipts tied to the key they were made for |
| Otp.Server.CheckCode | apps/api/src/auth/otp.service.ts:105-140 | reads the latest unconsumed code, refuses it after five guesses or out of time, otherwise claims it for the right digits and counts a wrong guess; it consumes nothing |
| Otp.Server.ConsumeClaim | apps/api/src/auth/otp.service.ts:167-185 | the compare-and-swap matches exactly an unconsumed, unexpired code with no guess since the check |
| Otp.Server.FindConsumedRecord | apps/api/src/auth/otp.service.ts:207-227 | finds a row exactly when this key consumed this code |
| Otp.Server.VerifyOtp | apps/api/src/auth/auth.controller.ts:171-266 | the right code in time and within five guesses always yields the new token; one with five guesses is refused and left as it is; a repeat under the same key yields the token already issued; nothing else yields one |
| OtpLimits.WhatTheCheckDecides | apps/api/src/auth/otp.service.ts:105-140 | five counted guesses or the end of its time refuse a code unread; then the digits decide, and nothing else changes |
| OtpLimits.WrongGuessIsCounted | apps/api/src/auth/otp.service.ts:124-130 | a wrong guess adds one, to the code it was made on |
| OtpLimits.ClaimsAreRight | apps/api/src/auth/otp.service.ts:115-140 | in every reachable state a request with a claim saw fewer than five guesses on its code, and the code is of its account and has its digits; the same of a code it won, found or recovers from |
| OtpLimits.OnlyALiveCodeIsTaken | apps/api/src/auth/otp.service.ts:167-185 | in every reachable state a consume that matches takes an unconsumed code still in time, with fewer than five guesses, for the account and digits presented, and marks it with its key |
| OtpLimits.ExhaustedIsDead | apps/api/src/auth/otp.service.ts:118-120 | an unconsumed code with five counted guesses is consumed by no key in any later state, and no token goes out for it |
| Money.ConfirmOrders | apps/api/src/checkout/checkout.service.ts:1414-1633 | writes one order per branch and charges the sum of the totals of the online ones |
| Money.OrdersHoldTheItems | apps/api/src/checkout/checkout.service.ts:1514-1603 | the orders together hold exactly the reserved items, each branch once |
| Money.ChargedIsOnlineItems | apps/api/src/checkout/checkout.service.ts:1451-1466 | with one payment method per branch the charge is the online items plus the fees of the online orders |
| Money.MixedPaymentMischarges | apps/api/src/checkout/checkout.service.ts:1452-1453 | without it the first item decides for the whole branch and an online item of another variant goes uncharged |
| Money.ReserveMakesPaymentUniform | apps/api/src/checkout/checkout.service.ts:532-539 | the one-group-per-branch check gives every branch one payment method |
| Money.AmountDueIsWhatIsLeft | apps/api/src/orders/branch-order-money.util.ts:38-55 | what is due is the items still wanted plus the fee unless refunded, and lies between 0 and the total |
| Money.RemainingStaysInBounds | apps/api/src/orders/branch-order-money.util.ts:64-87 | with at most one refund per item and one of the fee, what can still be refunded lies between 0 and the total |
| Money.RefundsNeverExceedTotal | apps/api/src/orders/branch-order-address-change.service.ts:238-255 | over an order's life of cancellations, returns and a conversion to pickup no item and no fee is refunded twice and refunds stay within the total |
| Money.CancelAllKeepsInv | apps/api/src/orders/branch-order-cancellation.service.ts:406-431 | cancelling active items refunds each of them once |
| Money.CloseKeepsInv | apps/api/src/orders/branch-order-cancellation.service.ts:477-496 | closing refunds the fee only of an online delivery, which no conversion has refunded before |
| Money.ConvertKeepsInv | apps/api/src/orders/branch-order-address-change.service.ts:238-255 | converting a delivery refunds its fee, which nothing has refunded before |
| MoneyRules.OrderIsFor | apps/api/src/checkout/checkout.service.ts:1514-1603 | a branch's order has the payment of the branch's first item, the fee of its slot if there is one, and the total of items and fee |
| MoneyRules.OrdersFollowItems | apps/api/src/checkout/checkout.service.ts:1514-1603 | the orders stand in the order in which their branches first appear among the reserved items |
| MoneyRules.AllowedIff | apps/api/src/orders/branch-order-cancellation.service.ts:296-342 | cancelling needs an open order and items still wanted, conversion an open delivery, a return a closed order and an item kept and not yet refunded |
| MoneyRules.CancelDoes | apps/api/src/orders/branch-order-cancellation.service.ts:406-496 | a cancellation marks exactly its items, refunds each whole if the order was paid online, and closes an order left without items, giving an online delivery's fee back |
| MoneyRules.RefundsAreMade | apps/api/src/orders/branch-order-cancellation.service.ts:406-496 | over an order's whole life every refund owed is made, whole: of each cancelled item paid online, of the fee of a delivery turned pickup, of the fee of an online delivery that lost all its items |
| MoneyRules.DueIsRemaining | apps/api/src/orders/branch-order-money.util.ts:38-87 | without returns, what is due on an online order is exactly what could still be refunded |
| MoneyRules.OnlineMoneyAgrees | apps/api/src/orders/branch-order-money.util.ts:38-87 | so over any life of an online order the two computations agree while it is open, and both are nothing once all is cancelled |
| MoneyRules.CancellingLowersDue | apps/api/src/orders/branch-order-money.util.ts:38-55 | cancelling an item lowers what is due by exactly its price times its quantity, and leaves the total |

## Left out

- Quote.QuoteThenReserve: covers stock and the checks before the lock phase; address, zone and slot checks of a delivery group are in `Slots` or left out.
- Quote.ReserveSuggestions: the same, and the eligibility of the customer and the offers.
- CheckoutService.Store.Reserve: starts at the lock phase; the checks before it are `Quote.ResolveGroups`, and the windows are in `Slots`.
- Slots.NeverOverbooked: runs leave out confirms whose uncounted slots do not fit and exceptions that cut a booked date; `Slots.FinishKeepsCapacityIff`, `Slots.ConfirmKeepsCapacityIff` and `Slots.ExceptionKeepsCapacityIff` say exactly when those are safe.
- Slots.StepKeepsInv: apart from confirm, whose read and check may come before its writes, each transaction is one instant.
- Slots.Calendar.ReserveDeliverySlot: address ownership, zone and minimum-order checks come before the modelled part and are not in it.
- Money.RefundsNeverExceedTotal: a return's amount is any amount up to the item's price; the fee arithmetic of `computeReturnRefundAmount` is not modelled.
- Browse.CompareKeys: numbers are integers, so a forged cursor with a fraction in it is not modelled.
- Browse.BuildCard: availability and effective price of an offer are inputs; images, colours, sizes, ratings and logos are left out.
- Interleaving.ReleasedExactlyOnce: a restock that inserts its row is one action, since nobody can lock a row that is not there yet.
- Interleaving.SerializableIffOnTime: speaks of transactions that commit; a statement-level refusal may be stricter than the ledger's, since a sweep takes only rows of reservations it has locked; `StatementRules.SweptReserveDecides` says when it is the ledger's.
- LockOrder.NoWaitCycle: speaks of explicit locks; foreign-key locks, unique-index waits and collisions of hashed advisory keys are outside the plans.
- LockOrder.RestockPlanClimbs: one vendor's offers only, with ids of equal length; `localeCompare` on lower-case UUIDs is taken to be code-unit order.
- Ledger.AcceptedHoldIsHonoured: eligibility, unchanged prices and fees, and the payment are one flag that the second transaction of confirm receives.
- CheckoutService.Store.Finalize: eligibility, prices, fees and the payment are one input flag; the release of an expired hold inside the second transaction is rolled back by the error that follows it, so it is a plain refusal.
- CanonicalMerge.NoOfferSpansTwoProducts: each catalogue operation is one atomic step; what review and confirmation read before they write is taken apart in `CanonicalMerge.LinkAsReadKeepsInvIff` and the lemmas after it, not in the runs.
- CanonicalMerge.Store.SplitProduct: brand, category and name of the new product, and deleting or renaming offers, do not touch the modelled links.
- Otp.OneTokenWithoutOverlap: the idempotency interceptor itself is not part of this model; which requests it lets run beside each other is left open.
- Otp.Server.VerifyOtp: tokens and codes are numbers; hashing, randomness and the fifteen-minute lifetime of an entry are a fresh id and a step that forgets entries.
- The stock part and the slot part of reserve and confirm are separate models of one transaction; they share no rows.
- Confirm's update of the customer's cart, its notifications, audit rows and idempotency bookkeeping are left out: they decide nothing modelled here.
- Exchange approval, order cancellation and the branch-order state machine beyond the hold, hand-over, restock, refund and terminal statuses they leave behind.
- Deleting a delivery window or a category: refused while anything refers to it, and otherwise only removes rows.
- HTTP, guards, validation of request shapes, terms acceptance, SMS, outbox, feature flags and the user interface: plumbing around the modelled rules.
