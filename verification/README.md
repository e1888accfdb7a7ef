# CoffeeOS: a verified model

CoffeeOS runs a coffee shop: a point of sale that keeps working offline, an API
that records sales, payments, shifts and orders, and a catalogue of products,
recipes and stock.  This project models the parts of it where something can go
wrong across calls, and proves what stays true.

* **Offline cache.**  The Workbox bundle shipped with the web client: the
  timestamp store and its expiry scan (`TimestampStore.dfy`), the guard that
  keeps expiry passes from overlapping (`ExpirationGuard.dfy`), a cache's responses
  together with their timestamps (`RuntimeCache.dfy`), the precache with its
  install and activate phases (`Precache.dfy`), releases one during another
  (`Releases.dfy`), and the byte-range responder (`RangeRequests.dfy`), held against
  sections 2.1, 3.1 and 4.4 of RFC 7233 (`RangeConformance.dfy`).
* **Money.**  Sales with line items and payments (`Sales.dfy`,
  `SalesServices.dfy`, `SalesIntegrity.dfy`, `SaleTotals.dfy`, `FrozenSale.dfy`),
  discounts and their redemption by concurrent clients (`Discounts.dfy`,
  `Redemption.dfy`), taxes (`Taxes.dfy`), and cash registers whose stored expense
  total is written by overlapping calls (`CashRegisters.dfy`).
* **Lifecycles.**  Orders and their numbers (`Orders.dfy`, `OrderNumbers.dfy`,
  `Calendar.dfy`, `Decimals.dfy`), shifts (`Shifts.dfy`), and the references kept
  by soft and hard deletes (`Catalogue.dfy`, `CatalogueServices.dfy`,
  `CatalogueIntegrity.dfy`).

`Wrappers.dfy`, `Sums.dfy`, `Existence.dfy` and `Text.dfy` hold what these share.

## How it is modelled

Each service is a class that holds the database client, and its methods update
the tables statement by statement, as the source does.  A table is a map from ids
to rows.  Ids come from one counter and are never reused, as the source's
generated ids never are.  Every method is proved equal to a function on the value
of the tables (`Sales.UpdatePayment`, `Catalogue.RemoveItem`, ...), says in terms of
fields and rows when it succeeds and what it writes, and promises the invariants of
its tables; the properties are proved of sequences of those functions: `Run(db, ops)`
is the state after any list of calls, whether they succeed or throw.

Where the order of awaits matters (stores, hits and expiry passes of a runtime cache,
installs and activations of the precache, discount redemption, expense totals) a call
is split at its awaits into steps of a state machine, and the properties hold for
every interleaving.  Elsewhere a call is one step.

Rows that the database returns in no particular order are summed in an order
chosen arbitrarily; `Sums.TotalTakeOut` shows that the order does not matter.
Money is exact (`real`), times are integers, and the clock is a parameter.  A
`Patch` is one field of a PATCH body, left out or given; JavaScript's falsy zero
and empty string are written out where the code depends on them.

The database contributes three foreign keys that the services do not check: a
payment may be moved only to a transaction that exists, a product named by a line
item cannot be deleted, and an item's supplier exists even when the request sends
an empty string.  The schema in `packages/database/prisma/schema.prisma` also makes
the delete of a product cascade to its recipes and their ingredients.

## What the code does not keep

These properties are promised or suggested by the repository and are false of the
code.  Each has a witness and the exact condition under which it holds.

* `complete` counts payments of every status, so a sale can be completed with no
  settled money (`CompletedWithoutMoney`); `CompletedUncoveredExactly` says when.
* The usage limit of a discount can be overrun by up to `k - 1` uses when `k`
  clients are between check and increment, and this is reached for every `k`
  (`LimitKeptExactly`).
* A discount's PATCH checks type and value, and the two dates, only when both are
  in the body (`UpdateLeavesDomainExactly`, for one call); for runs,
  `PatchedOutOfDomain` gives the inputs and `DomainKeptExactly` the condition.
* Two overlapping `recordExpense` calls can leave the stored total short for good
  (`OverlapLeavesTotalShort`); it is exact exactly when calls for a register go one
  at a time (`ExactExactlyOneAtATime`).
* An order number takes its date from UTC and its count from the server's own day.
  Numbers repeat on a server in any other time zone (`DistinctExactlyInUtc`).  In
  UTC they repeat after a deletion (`DeletionRepeatsNumber`) exactly when it leaves
  a gap among the orders of the day (`DeletionHarmsExactly`, and for whole runs
  `DeletionHarmsRunsExactly`).
* A PATCH that carries a status can serve an order that was never started
  (`PatchedPastStart`); `ServedInOrderExactly` and `ThreeChangesExactly` say which
  statuses do harm.  One that moves an open shift can put two open shifts in one
  place (`MovedTogether`); `PatchKeepsOneOpenExactly` says when for one call, and
  `OneOpenShiftExactly` for runs.  The error text for deleting a served order
  says to cancel it instead, which `cancel` refuses.
* `delete` on a cache's expiration object can drop a requested pass
  (`DeleteForgetsRequest`), exactly when a rerun is pending (`DeleteForgetsExactly`).
* An activation deletes every cached key its release does not list, also those a
  release being installed has just stored, so a version can be in use with a URL
  that is not cached (`OverlapLosesUrl`); `ActivationHarmsExactly` says when.
* Some range requests are not answered as RFC 7233 asks; `RequestConformsExactly`
  says which, for every header.  `AnnouncesByteBeyondEnd` is one, a last position
  equal to the size; `ReversedIsServed` are others, reversed positions within the
  body; and so are the headers of `StrayTextIsRead`, with text before or after the
  numbers, unless their last number exceeds the size.  The RFC has these refused
  with status 416 or ignored, and the code answers with a part.

## Model

| member | source | states |
|---|---|---|
| Existence.AllFoundExactly | apps/api/src/modules/transactions/transactions.service.ts:26-35 | comparing the number of rows found with the number of ids accepts a list exactly when its ids are pairwise distinct and all exist |
| Sums.TotalTakeOut | apps/api/src/modules/transactions/transactions.service.ts:182-202 | a sum over rows is the same whichever row is taken first |
| SalesServices.PrismaService.CreateLineItems | apps/api/src/modules/transactions/transactions.service.ts:43-49 | a nested create adds one row per item under fresh ids, leaving all other rows alone |
| SalesServices.TransactionsService.Create | apps/api/src/modules/transactions/transactions.service.ts:22-62 | creates a pending transaction with its tax, its discount and a row for each line item, exactly when each item names an existing product and no two the same; otherwise nothing changes |
| SalesServices.TransactionsService.AddUpLines | apps/api/src/modules/transactions/transactions.service.ts:179-193 | the loop adds up quantity times unit price over all line rows, in any order |
| SalesServices.TransactionsService.AddUpPayments | apps/api/src/modules/transactions/transactions.service.ts:199-202 | the reduction adds up the amounts of all payment rows, whatever their status |
| SalesServices.TransactionsService.CalculateTotal | apps/api/src/modules/transactions/transactions.service.ts:176-216 | total plus discount is subtotal plus tax, balance plus payments is total, and all are those of the transaction's rows; an unknown id is not found |
| SaleTotals.NothingIsFree | apps/api/src/modules/transactions/transactions.service.ts:179-202 | a sale without lines, tax and discount costs nothing, and one without payments is unpaid |
| SaleTotals.LineRaisesTotal | apps/api/src/modules/transactions/transactions.service.ts:182-193 | a line of q at price p raises the total of its sale by q times p, and of no other |
| SaleTotals.TermsMoveTotal | apps/api/src/modules/transactions/transactions.service.ts:194-197 | tax raises the total and a discount lowers it by as much, and none is the same as zero |
| SaleTotals.PaymentLowersBalance | apps/api/src/modules/transactions/transactions.service.ts:199-206 | a payment of any status lowers the balance of its sale by its amount, and of no other |
| SalesServices.TransactionsService.Update | apps/api/src/modules/transactions/transactions.service.ts:218-274 | writes the fields of the body to a transaction that is not completed, and rows for its line items in place of the old only when the list is not empty |
| SalesServices.TransactionsService.Cancel | apps/api/src/modules/transactions/transactions.service.ts:276-303 | sets a transaction that is not completed to cancelled and changes nothing else |
| SalesServices.TransactionsService.Complete | apps/api/src/modules/transactions/transactions.service.ts:305-332 | completes a transaction exactly when line totals plus tax less discount do not exceed the payments, whatever its status, and moves no total |
| SalesServices.TransactionsService.Remove | apps/api/src/modules/transactions/transactions.service.ts:334-369 | deletes a transaction that is not completed with its lines and payments, and nothing else |
| SalesServices.PaymentsService.Create | apps/api/src/modules/payments/payments.service.ts:29-56 | adds a pending payment to an existing transaction |
| SalesServices.PaymentsService.Update | apps/api/src/modules/payments/payments.service.ts:155-185 | patches a payment that is neither completed nor refunded |
| SalesServices.PaymentsService.Refund | apps/api/src/modules/payments/payments.service.ts:187-216 | refunds a completed payment and no other |
| SalesServices.PaymentsService.Remove | apps/api/src/modules/payments/payments.service.ts:218-236 | deletes a payment unless it is completed |
| SalesIntegrity.AcceptedLines | apps/api/src/modules/transactions/transactions.service.ts:234-247 | line items that pass the count check name existing products, each once |
| SalesIntegrity.RunValid | apps/api/src/modules/transactions/transactions.service.ts:22-369 | every run keeps ids fresh, references existing and the products of a sale distinct |
| SalesIntegrity.ReachableValid | apps/api/src/modules/transactions/transactions.service.ts:234-247 | in every reachable state no line or payment dangles and each transaction's lines name distinct products |
| FrozenSale.CompletedSaleIsFrozen | apps/api/src/modules/transactions/transactions.service.ts:227-229 | over every run a completed sale stays completed, is never deleted, and keeps its lines, tax, discount and total |
| FrozenSale.SettledPaymentIsFinal | apps/api/src/modules/payments/payments.service.ts:164-170 | over every run a settled payment keeps amount, method and transaction, stays completed or refunded while it exists, and never returns once deleted |
| FrozenSale.SettledPaymentVanishes | apps/api/src/modules/payments/payments.service.ts:227-235 | a settled payment vanishes only after a refund or with its transaction, which was not completed |
| FrozenSale.CapturedPaymentStays | apps/api/src/modules/payments/payments.service.ts:227-231 | over every run that does not refund it, the row of a completed payment of a completed sale is untouched |
| FrozenSale.StepKeeps | apps/api/src/modules/transactions/transactions.service.ts:22-369 | every call keeps the tables valid, completed sales frozen and settled payments on their terms; each service method promises this |
| FrozenSale.StepSettled | apps/api/src/modules/payments/payments.service.ts:172-205 | each call moves a transaction's settled money by the payment it captures or refunds, by all of it when it deletes the transaction, and otherwise not at all |
| FrozenSale.SettledMoneyIsConserved | apps/api/src/modules/payments/payments.service.ts:164-205 | on a completed sale settled money changes by zero, by plus the amount just captured, or by minus the amount just refunded |
| FrozenSale.SettledMoneyOverRun | apps/api/src/modules/payments/payments.service.ts:155-236 | over a run the settled money of a transaction is what was captured less what was refunded or deleted with it |
| FrozenSale.CompletedUncoveredExactly | apps/api/src/modules/transactions/transactions.service.ts:199-202 | complete lets through a sale its settled payments do not cover exactly when unsettled payments make up the difference |
| FrozenSale.CompletedWithoutMoney | apps/api/src/modules/transactions/transactions.service.ts:305-321 | a reachable sale of 10 is completed with a failed payment and no settled money |
| FrozenSale.CoveredUntilRefund | apps/api/src/modules/transactions/transactions.service.ts:311-315 | a completed sale covered by settled payments keeps a balance of zero or less over every run that refunds none of them |
| Discounts.CodesStayUnique | apps/api/src/modules/discounts/discounts.service.ts:139-149 | an accepted create or update keeps discount codes unique |
| Discounts.UpdateLeavesDomainExactly | apps/api/src/modules/discounts/discounts.service.ts:151-177 | exactly which accepted patches leave a row that create would refuse |
| Discounts.ReachableCodesUnique | apps/api/src/modules/discounts/discounts.service.ts:21-28 | in every reachable table no two discounts share a code |
| Discounts.PatchedOutOfDomain | apps/api/src/modules/discounts/discounts.service.ts:151-177 | each of type, value and the two dates, carried without its partner, can take a row out of the domain |
| Discounts.DomainKeptExactly | apps/api/src/modules/discounts/discounts.service.ts:30-62 | every row of every reachable table obeys the rules of create exactly when no PATCH carries one field of a pair without the other |
| Discounts.AmountWithinBounds | apps/api/src/modules/discounts/discounts.service.ts:242-264 | the discount lies between zero and the subtotal and under any non-zero cap |
| Discounts.AmountExactly | apps/api/src/modules/discounts/discounts.service.ts:244-262 | a fixed amount is taken off as it is, a percentage takes off that part of the subtotal and buy-x-get-y nothing, unless the cap or the subtotal is less, and then that |
| Discounts.DiscountAndRestGrow | apps/api/src/modules/discounts/discounts.service.ts:242-264 | the discount and the amount left to pay never fall as the subtotal grows, for every type, cap and value |
| Discounts.ListedExactlyWhenAccepted | apps/api/src/modules/discounts/discounts.service.ts:79-101 | findActive lists a discount exactly when it is active and in date, so exactly when a large enough purchase at that instant is accepted while uses are left |
| Discounts.DiscountsService.CreateDiscount | apps/api/src/modules/discounts/discounts.service.ts:21-62 | inserts the row exactly when its code is free, its value fits its type and its dates are in order |
| Discounts.DiscountsService.UpdateDiscount | apps/api/src/modules/discounts/discounts.service.ts:135-183 | writes each field the body carries, exactly when the code is free and what the body carries of a pair fits |
| Discounts.DiscountsService.Calculate | apps/api/src/modules/discounts/discounts.service.ts:211-265 | accepts exactly when active, in date, at or above a non-zero minimum and under a non-zero limit, and takes off the least of worth, cap and subtotal |
| Discounts.DiscountsService.IncrementUsage | apps/api/src/modules/discounts/discounts.service.ts:267-272 | adds one use to an existing row and looks at no limit |
| Redemption.RunInv | apps/api/src/modules/discounts/discounts.service.ts:237-240 | uses counted plus uses promised stay within limit plus k minus 1 in every run with k clients at a time |
| Redemption.OverrunAtMost | apps/api/src/modules/discounts/discounts.service.ts:237-272 | with at most k clients between check and increment the count never exceeds the limit plus k minus 1, or the count it started from |
| Redemption.OverrunReached | apps/api/src/modules/discounts/discounts.service.ts:267-272 | for every k, limit and starting count below it a run reaches exactly that count |
| Redemption.LimitKeptExactly | apps/api/src/modules/discounts/discounts.service.ts:237-272 | every run keeps the limit exactly when clients redeem one at a time |
| Taxes.BatchIsOneByOne | apps/api/src/modules/taxes/taxes.service.ts:82-114 | the batch is the sum of the single taxes over the distinct ids that exist |
| Taxes.OnlyActiveIdsMatter | apps/api/src/modules/taxes/taxes.service.ts:99-104 | order, repetitions, unknown and inactive ids make no difference |
| Taxes.BatchAdds | apps/api/src/modules/taxes/taxes.service.ts:106-111 | the batch is additive in the subtotal |
| Taxes.BatchSplits | apps/api/src/modules/taxes/taxes.service.ts:99-111 | splitting the ids splits the batch when no active tax is in both parts |
| Taxes.TaxesService.CalculateOneTax | apps/api/src/modules/taxes/taxes.service.ts:82-90 | a hundred times the tax is subtotal times rate, or zero when inactive; an unknown tax is not found |
| Taxes.TaxesService.CalculateMultipleTaxes | apps/api/src/modules/taxes/taxes.service.ts:92-114 | the breakdown lists each active requested tax once with its rate in percent of the subtotal, and the total is the sum of the breakdown |
| CashRegisters.StoredTotalLagsOnly | apps/api/src/modules/cash-registers/cash-registers.service.ts:121-146 | under any interleaving the stored total is the sum of a prefix of the expense log and never exceeds the rows |
| CashRegisters.ExactWithoutOverlap | apps/api/src/modules/cash-registers/cash-registers.service.ts:121-146 | when calls for a register do not overlap its stored total is exact whenever none is under way |
| CashRegisters.OverlapLeavesTotalShort | apps/api/src/modules/cash-registers/cash-registers.service.ts:132-143 | two overlapping calls can leave the stored total short after both are over |
| CashRegisters.ExactExactlyOneAtATime | apps/api/src/modules/cash-registers/cash-registers.service.ts:121-146 | with at most k calls per register under way, every run leaves idle registers with exact totals exactly when k is one |
| CashRegisters.WithoutSums | apps/api/src/modules/cash-registers/cash-registers.service.ts:179-186 | deleting a register's rows takes its sum to zero and moves no other register's |
| CashRegisters.WithoutExactly | apps/api/src/modules/cash-registers/cash-registers.service.ts:179-186 | exactly the register's rows go and every other row stays as often as it was there |
| CashRegisters.CashRegistersService.AddUpRows | apps/api/src/modules/cash-registers/cash-registers.service.ts:132-137 | the reduction is the sum of that register's rows |
| CashRegisters.CashRegistersService.RecordExpense | apps/api/src/modules/cash-registers/cash-registers.service.ts:121-146 | on its own a call adds one row and stores the exact new total, which is what its four steps do without interruption |
| CashRegisters.CashRegistersService.GetSummary | apps/api/src/modules/cash-registers/cash-registers.service.ts:148-174 | expenses are the full row sum, a zero count falls back to the denominations, and variance and net cash follow |
| CashRegisters.CashRegistersService.Remove | apps/api/src/modules/cash-registers/cash-registers.service.ts:176-191 | deletes the register with its expenses and denominations and keeps all other rows |
| Orders.ServedIsFinal | apps/api/src/modules/orders/orders.service.ts:185-191 | over all runs a served order never changes and is never deleted |
| Orders.CancelledIsFinal | apps/api/src/modules/orders/orders.service.ts:316-328 | over all runs a cancelled order never changes while it exists and never returns |
| Orders.ThreeChangesExactly | apps/api/src/modules/orders/orders.service.ts:217-294 | every order changes status at most three times in every run exactly when no PATCH carries PENDING or IN_PROGRESS |
| Orders.ServedInOrderExactly | apps/api/src/modules/orders/orders.service.ts:223-294 | every served order of every run was created, started, ready and served in that order exactly when no PATCH carries IN_PROGRESS, READY or SERVED |
| Orders.PatchedPastStart | apps/api/src/modules/orders/orders.service.ts:193-195 | with a PATCH to any one of those three statuses a run ends with a served order that was never started |
| Orders.StepKeeps | apps/api/src/modules/orders/orders.service.ts:185-359 | every call leaves served orders alone, cancelled ones while they exist, and stamps in order unless a PATCH wrote a status; each service method promises this |
| Orders.OrdersService.CreateOrder | apps/api/src/modules/orders/orders.service.ts:29-59 | adds a pending order with the fields of the body and a number that carries the UTC date of its creation and one more than the orders since the server's midnight, or refuses an unknown transaction |
| Orders.OrdersService.UpdateOrder | apps/api/src/modules/orders/orders.service.ts:176-206 | writes each field the body carries to an order that is neither served nor cancelled, and changes nothing else |
| Orders.OrdersService.Start | apps/api/src/modules/orders/orders.service.ts:208-239 | starts a pending order and stamps the time |
| Orders.OrdersService.Ready | apps/api/src/modules/orders/orders.service.ts:241-272 | marks an order in progress as ready and stamps the time |
| Orders.OrdersService.Serve | apps/api/src/modules/orders/orders.service.ts:274-305 | marks a ready order as served and stamps the time |
| Orders.OrdersService.CancelOrder | apps/api/src/modules/orders/orders.service.ts:307-340 | sets an order that is neither served nor cancelled to cancelled, with the time |
| Orders.OrdersService.RemoveOrder | apps/api/src/modules/orders/orders.service.ts:342-360 | deletes an order unless it was served |
| Decimals.ValueOfPadded | apps/api/src/modules/orders/orders.service.ts:374 | a zero-padded numeral reads back for every number and width |
| Calendar.IsoDateReadsBack | apps/api/src/modules/orders/orders.service.ts:363-364 | the date part has eight digits and reads back as the date |
| Calendar.DatesGrow | apps/api/src/modules/orders/orders.service.ts:363-364 | later days have larger dates |
| Calendar.DaysToDateOf | apps/api/src/modules/orders/orders.service.ts:363-364 | the n-th date is a date of the Gregorian calendar, and the closed-form count of days to it gives n back |
| Orders.NumberReadsBack | apps/api/src/modules/orders/orders.service.ts:362-375 | an order number is ORD, eight digits and at least four more, and reads back as its date and count, counts above 9999 included |
| Orders.NumberCarriesDay | apps/api/src/modules/orders/orders.service.ts:362-375 | the date in an order number is a date of the calendar, and as many days after 1 January 1970 as the instant of creation |
| Orders.MidnightExactly | apps/api/src/modules/orders/orders.service.ts:366-368 | orders are counted from the last instant at which the server's clock began a day |
| OrderNumbers.RunNumbers | apps/api/src/modules/orders/orders.service.ts:366-374 | on a server in UTC each order's number is its place among the orders of its day, over every run without deletions |
| OrderNumbers.NumbersDistinctInUtc | apps/api/src/modules/orders/orders.service.ts:362-375 | on a server in UTC all order numbers differ over every run without deletions |
| OrderNumbers.DistinctExactlyInUtc | apps/api/src/modules/orders/orders.service.ts:363-371 | order numbers stay distinct over every run without deletions exactly when the server is in UTC |
| OrderNumbers.DeletionHarmsExactly | apps/api/src/modules/orders/orders.service.ts:342-375 | after a deletion the next order repeats no number exactly when the deleted order was not of today or was the last of today |
| OrderNumbers.DeletionHarmsRunsExactly | apps/api/src/modules/orders/orders.service.ts:342-375 | after a deletion every further run that leaves no gap keeps all numbers distinct exactly when the deletion left none |
| OrderNumbers.NumbersDistinctWithoutGaps | apps/api/src/modules/orders/orders.service.ts:362-375 | on a server in UTC all order numbers differ over every run whose deletions leave no gap among today's numbers |
| OrderNumbers.DeletionRepeatsNumber | apps/api/src/modules/orders/orders.service.ts:366-374 | after a deletion the next order can repeat a number in use |
| Shifts.ShiftsReconciled | apps/api/src/modules/shifts/shifts.service.ts:107-127 | in every reachable state an open shift has no closing, and a closed one has a total equal to its four parts and a variance equal to total less expected |
| Shifts.ClosedIsFinal | apps/api/src/modules/shifts/shifts.service.ts:100-102 | over all runs a closed shift stays closed with the same count while it exists, and never returns |
| Shifts.OpenUntilClosed | apps/api/src/modules/shifts/shifts.service.ts:133-137 | over all runs that do not close it an open shift exists and is open |
| Shifts.PatchKeepsOneOpenExactly | apps/api/src/modules/shifts/shifts.service.ts:88-95 | a PATCH keeps one open shift per place exactly when it does not move an open shift onto another |
| Shifts.AtMostOneOpenShift | apps/api/src/modules/shifts/shifts.service.ts:21-44 | over every run whose PATCHes leave the place alone each place has at most one open shift |
| Shifts.MovedTogether | apps/api/src/modules/shifts/shifts.service.ts:88-95 | two shifts opened in different places, one moved onto the other, leave two open shifts in one place |
| Shifts.OneOpenShiftExactly | apps/api/src/modules/shifts/shifts.service.ts:21-95 | every run keeps one open shift per place exactly when no PATCH may move a shift |
| Shifts.StepKeeps | apps/api/src/modules/shifts/shifts.service.ts:21-142 | every call keeps shifts reconciled, closed ones as they are and open ones in place, and one open shift per place unless a PATCH moved one; each service method promises this |
| Shifts.ShiftsService.CreateShift | apps/api/src/modules/shifts/shifts.service.ts:21-44 | opens a shift where none is open |
| Shifts.ShiftsService.UpdateShift | apps/api/src/modules/shifts/shifts.service.ts:88-95 | writes the fields of the body to a shift in any status, and changes nothing else |
| Shifts.ShiftsService.CloseShift | apps/api/src/modules/shifts/shifts.service.ts:97-128 | closes an open shift and records the four parts, their sum, the opening cash as expected, and the difference |
| Shifts.ShiftsService.RemoveShift | apps/api/src/modules/shifts/shifts.service.ts:130-142 | deletes a shift unless it is open |
| CatalogueIntegrity.AcceptedIngredients | apps/api/src/modules/recipes/recipes.service.ts:28-39 | ingredients that pass the count check name existing items, each once |
| CatalogueIntegrity.NothingDangles | apps/api/src/modules/recipes/recipes.service.ts:233-264 | over every run every category, supplier, product, item and recipe that is referred to exists |
| CatalogueIntegrity.StepValid | apps/api/src/modules/products/products.service.ts:16-241 | every call keeps ids, names and codes unique, references existing and the items of a recipe distinct; each service method promises this |
| CatalogueIntegrity.CategoryDeletedExactlyWhenSafe | apps/api/src/modules/categories/categories.service.ts:224-235 | a category is hard deleted exactly when that leaves no dangling reference |
| CatalogueIntegrity.SupplierDeletedExactlyWhenSafe | apps/api/src/modules/suppliers/suppliers.service.ts:196-207 | a supplier is hard deleted exactly when that leaves no dangling reference |
| CatalogueIntegrity.ItemDeletedExactlyWhenSafe | apps/api/src/modules/inventory-items/inventory-items.service.ts:300-314 | an item is hard deleted exactly when that leaves no dangling reference |
| CatalogueIntegrity.RemoveProductNoneDangling | apps/api/src/modules/products/products.service.ts:229-240 | removing a product, soft or hard with its cascade, leaves no dangling reference |
| CatalogueIntegrity.ReachableCatalogue | apps/api/src/modules/recipes/recipes.service.ts:236-250 | in every reachable catalogue nothing dangles, SKUs, codes and, whatever their letter case, names are unique, and each recipe names distinct items |
| CatalogueServices.PrismaService.CreateIngredients | apps/api/src/modules/recipes/recipes.service.ts:46-53 | a nested create adds one ingredient row per entry under fresh ids |
| CatalogueServices.PrismaService.CreateRecipeRow | apps/api/src/modules/recipes/recipes.service.ts:43-65 | the nested create adds the recipe row and its ingredient rows, all under fresh ids |
| CatalogueServices.CategoriesService.Create | apps/api/src/modules/categories/categories.service.ts:15-54 | adds a category unless its name is taken in any letter case |
| CatalogueServices.CategoriesService.Update | apps/api/src/modules/categories/categories.service.ts:150-190 | patches a category unless another has the new name in any letter case |
| CatalogueServices.CategoriesService.Remove | apps/api/src/modules/categories/categories.service.ts:207-236 | deactivates a category that has products and deletes one that has none |
| CatalogueServices.ProductsService.Create | apps/api/src/modules/products/products.service.ts:16-45 | adds a product with a free SKU and an existing category |
| CatalogueServices.ProductsService.Update | apps/api/src/modules/products/products.service.ts:167-210 | patches a product unless the new SKU is taken or the new category missing |
| CatalogueServices.ProductsService.Remove | apps/api/src/modules/products/products.service.ts:212-241 | deactivates a product with ticket lines and deletes one without, with its recipes |
| CatalogueServices.SuppliersService.Create | apps/api/src/modules/suppliers/suppliers.service.ts:15-37 | adds a supplier unless its code is taken |
| CatalogueServices.SuppliersService.Update | apps/api/src/modules/suppliers/suppliers.service.ts:144-178 | patches a supplier unless the new code is taken |
| CatalogueServices.SuppliersService.Remove | apps/api/src/modules/suppliers/suppliers.service.ts:180-208 | deactivates a supplier that has items and deletes one that has none |
| CatalogueServices.InventoryItemsService.Create | apps/api/src/modules/inventory-items/inventory-items.service.ts:16-53 | adds an item with a free code and an existing supplier or none |
| CatalogueServices.InventoryItemsService.Update | apps/api/src/modules/inventory-items/inventory-items.service.ts:234-280 | patches an item unless the new code is taken or the new supplier missing |
| CatalogueServices.InventoryItemsService.Remove | apps/api/src/modules/inventory-items/inventory-items.service.ts:282-315 | deactivates an item used by a recipe or a movement and deletes any other |
| CatalogueServices.RecipesService.Create | apps/api/src/modules/recipes/recipes.service.ts:15-65 | adds a recipe of an existing product with its ingredients |
| CatalogueServices.RecipesService.Update | apps/api/src/modules/recipes/recipes.service.ts:210-275 | patches a recipe, replacing its ingredients only when the list is not empty |
| CatalogueServices.RecipesService.Remove | apps/api/src/modules/recipes/recipes.service.ts:277-295 | deletes a recipe and its ingredients |
| TimestampStore.CacheTimestampsModel.SetTimestamp | apps/pos-web/public/workbox-fdcc1164.js:653-664 | writes the one record filed under the cache and the URL without its fragment |
| TimestampStore.CacheTimestampsModel.Scan | apps/pos-web/public/workbox-fdcc1164.js:670-683 | walking from newest to oldest with a counter collects exactly the records that must not stay |
| TimestampStore.CacheTimestampsModel.ExpireEntries | apps/pos-web/public/workbox-fdcc1164.js:670-687 | the pass leaves exactly the surviving records and returns the URLs of the others |
| TimestampStore.WithoutHashExactly | apps/pos-web/public/workbox-fdcc1164.js:631-634 | a URL loses its fragment and nothing else |
| TimestampStore.LessExactly | apps/pos-web/public/workbox-fdcc1164.js:670-674 | ids are ordered as texts by code unit |
| TimestampStore.AtMostMaxStay | apps/pos-web/public/workbox-fdcc1164.js:680-681 | at most maxEntries records of the cache survive |
| TimestampStore.NewestMaxStay | apps/pos-web/public/workbox-fdcc1164.js:678-682 | if a record that is not too old goes, exactly maxEntries survive and each has a later time, or the same and a larger id |
| TimestampStore.OtherCachesUntouched | apps/pos-web/public/workbox-fdcc1164.js:680 | records of other caches are untouched |
| TimestampStore.SecondPassEvictsNothing | apps/pos-web/public/workbox-fdcc1164.js:670-687 | a second pass under the same limits evicts nothing |
| TimestampStore.JustStampedSurvives | apps/pos-web/public/workbox-fdcc1164.js:653-687 | a URL just stamped strictly newest survives the pass unless it is too old already |
| ExpirationGuard.UpdatedEntrySurvives | apps/pos-web/public/workbox-fdcc1164.js:1178-1181 | the entry a cache update just wrote survives a pass that follows within the maximum age |
| ExpirationGuard.CacheExpiration.Request | apps/pos-web/public/workbox-fdcc1164.js:742-744 | a call starts a pass when none runs and otherwise sets the rerun flag |
| ExpirationGuard.CacheExpiration.Finish | apps/pos-web/public/workbox-fdcc1164.js:749 | the end of a pass starts the pending rerun, if any |
| ExpirationGuard.CacheExpiration.Delete | apps/pos-web/public/workbox-fdcc1164.js:762-764 | delete drops the rerun flag and expires every record of the cache, no other cache's |
| ExpirationGuard.AtMostOnePass | apps/pos-web/public/workbox-fdcc1164.js:742-750 | under every interleaving at most one pass runs, a rerun flag implies one, and passes never outnumber requests |
| ExpirationGuard.EveryRequestAnswered | apps/pos-web/public/workbox-fdcc1164.js:742-750 | without delete every request is followed by a pass that starts at or after it once no pass is under way |
| ExpirationGuard.AnsweredExactly | apps/pos-web/public/workbox-fdcc1164.js:742-764 | over every run with deletes, once no pass is under way, all requests were answered exactly when every rerun that delete dropped was made up for by a later pass |
| ExpirationGuard.Drains | apps/pos-web/public/workbox-fdcc1164.js:749 | from every reachable state the passes come to an end after at most one rerun |
| ExpirationGuard.DeleteForgetsRequest | apps/pos-web/public/workbox-fdcc1164.js:762-764 | a request made while a pass runs can be lost to delete |
| ExpirationGuard.DeleteForgetsExactly | apps/pos-web/public/workbox-fdcc1164.js:742-764 | in every state reached without it, delete followed by the end of the passes leaves every request answered exactly when no rerun was pending |
| RuntimeCache.ExpirePass | apps/pos-web/public/workbox-fdcc1164.js:745-748 | a whole pass leaves of its own cache only records used within the maximum age, at most maxEntries, evicts no others, and deletes exactly the responses of the URLs that went |
| RuntimeCache.PassesExpireByAge | apps/pos-web/public/workbox-fdcc1164.js:742-749 | however much later it scans, a pass takes every record that was past the maximum age when it started, and by age no other |
| RuntimeCache.CallsWrite | apps/pos-web/public/workbox-fdcc1164.js:1160-1180 | a store files its response and it and a hit leave a record with the time, and no other response or record changes |
| RuntimeCache.CallsAskForPass | apps/pos-web/public/workbox-fdcc1164.js:742-749 | a finished store and a hit start a pass or want a rerun, and the end of a pass starts the rerun |
| RuntimeCache.PassAlone | apps/pos-web/public/workbox-fdcc1164.js:670-687 | the steps of a pass that nothing interrupts leave what the whole pass leaves |
| RuntimeCache.ResponsesKeepRecords | apps/pos-web/public/workbox-fdcc1164.js:745-750 | under every interleaving of stores, hits and passes a response without its timestamp has a call in flight that will stamp it or delete it |
| RuntimeCache.PassKeepsSync | apps/pos-web/public/workbox-fdcc1164.js:745-748 | a pass takes the response of every record it takes and no other's, so each response keeps its timestamp |
| RuntimeCache.PassLimitsResponses | apps/pos-web/public/workbox-fdcc1164.js:745-748 | after a pass the cache holds at most maxEntries responses |
| RuntimeCache.CacheStaysWithinLimit | apps/pos-web/public/workbox-fdcc1164.js:1159-1181 | whenever no store and no pass is under way every response has its timestamp and there are at most maxEntries of them, under every interleaving |
| Precache.KeyCarriesRevision | apps/pos-web/public/workbox-fdcc1164.js:832-850 | the cache key of a revisioned entry holds the revision and, apart from it, the URL |
| Precache.PlainKeys | apps/pos-web/public/workbox-fdcc1164.js:833-842 | without a revision the key is the URL, and an entry without a URL is refused |
| Precache.RevisionAppended | apps/pos-web/public/workbox-fdcc1164.js:843-849 | a revision becomes the last parameter of a URL that has none |
| Precache.AcceptedExactlyWhenConsistent | apps/pos-web/public/workbox-fdcc1164.js:1013-1038 | a list is accepted exactly when, with what is there, every URL has one key and every key one integrity |
| Precache.KeysNeverChange | apps/pos-web/public/workbox-fdcc1164.js:1021-1025 | no call changes the key a URL already has, refused calls included |
| Precache.AcceptedEntriesAdded | apps/pos-web/public/workbox-fdcc1164.js:1033 | an accepted list leaves each of its URLs under its own key |
| Precache.AddedInParts | apps/pos-web/public/workbox-fdcc1164.js:1013-1038 | entries are added one after the other, up to the first refused |
| Precache.EntryAdded | apps/pos-web/public/workbox-fdcc1164.js:1019-1033 | a new URL goes to the end of the order, a revision makes the fetch go past the HTTP cache, and an integrity is kept |
| Precache.EntryRefused | apps/pos-web/public/workbox-fdcc1164.js:1021-1031 | an entry is refused for having no URL, another key for its URL, or another integrity for its key |
| Precache.PrecacheController.AddToCacheList | apps/pos-web/public/workbox-fdcc1164.js:1013-1038 | the loop adds the entries up to the first offending one and reports it |
| Precache.PrecacheController.InstallInto | apps/pos-web/public/workbox-fdcc1164.js:1039-1062 | goes through the URLs in order and adds only replies of status below 400; it succeeds exactly when the first URL of each missing key gets one, and stops at the first that does not |
| Precache.PrecacheController.ActivateOn | apps/pos-web/public/workbox-fdcc1164.js:1063-1072 | deletes exactly the cached keys the list does not have |
| Precache.InstallKeepsOld | apps/pos-web/public/workbox-fdcc1164.js:925-932 | an install, failed or not, removes and changes nothing that was cached |
| Precache.InstallFetchesExactlyMissing | apps/pos-web/public/workbox-fdcc1164.js:925-965 | a successful install fetches each missing key exactly once and no other |
| Precache.InstallFailsOnlyOnBadResponse | apps/pos-web/public/workbox-fdcc1164.js:956-965 | an install whose missing URLs all answer with a storable response succeeds |
| Precache.SucceedsExactly | apps/pos-web/public/workbox-fdcc1164.js:956-980 | an install succeeds exactly when the first URL of each missing key is answered with a status below 400 |
| Precache.FailsOnStatus | apps/pos-web/public/workbox-fdcc1164.js:956-980 | a missing key whose URLs all get no reply or status 400 and above makes the install fail and is not cached |
| Precache.EveryUrlHandled | apps/pos-web/public/workbox-fdcc1164.js:858-872 | a successful install reports every URL once, as updated or as not updated |
| Precache.InstalledBodiesAreIntact | apps/pos-web/public/workbox-fdcc1164.js:1044-1051 | on a network that checks integrity every body an install adds has the integrity its key is listed with |
| Precache.UpgradeLeavesExactlyTheManifest | apps/pos-web/public/workbox-fdcc1164.js:1039-1072 | install then activate leaves exactly the keys of the list, old entries unchanged |
| Releases.InstallAlone | apps/pos-web/public/workbox-fdcc1164.js:1039-1062 | the fetches of an install that nothing interrupts leave what a whole install leaves |
| Releases.AlwaysServesOffline | apps/pos-web/public/workbox-fdcc1164.js:1039-1072 | over every interleaving of installs and activations, failed and abandoned ones included, the version in use has all its URLs cached, as long as no activation takes from an install under way what it has handled |
| Releases.ActivationHarmsExactly | apps/pos-web/public/workbox-fdcc1164.js:1063-1072 | an activation leaves every later version in use complete, given that later activations are clean, exactly when it is clean itself |
| Releases.OverlapLosesUrl | apps/pos-web/public/workbox-fdcc1164.js:1063-1072 | a run activates a waiting release while the next installs and ends with a version in use that lacks a URL |
| RangeRequests.FirstDashIsLeftmostMatch | apps/pos-web/public/workbox-fdcc1164.js:780 | the digits around the first dash are the leftmost and longest match of the pattern |
| RangeRequests.ParsesNumbers | apps/pos-web/public/workbox-fdcc1164.js:774-787 | a header that comes down to bytes, digits, dash, digits is read as those numbers |
| RangeRequests.RefusedExactly | apps/pos-web/public/workbox-fdcc1164.js:775-783 | a header is refused exactly for another unit, a comma, no dash, or no digit next to the first dash |
| RangeRequests.SpelledAnyway | apps/pos-web/public/workbox-fdcc1164.js:775 | blanks around a header and the case of its letters make no difference |
| RangeRequests.ContentRangeReadsBack | apps/pos-web/public/workbox-fdcc1164.js:812-815 | a printed Content-Range reads back as the positions it was printed from |
| RangeRequests.PartialAnswer | apps/pos-web/public/workbox-fdcc1164.js:803-817 | a partial answer has the slice as body, its length, and a Content-Range with its positions |
| RangeRequests.ServeExactly | apps/pos-web/public/workbox-fdcc1164.js:789-817 | the whole answer to every range: refused when the last number exceeds the size, and otherwise status 206, the bytes, and the cached headers with length and positions put in |
| RangeRequests.RespondExactly | apps/pos-web/public/workbox-fdcc1164.js:769-773 | a cached part is returned as it is, and a header that is missing or refused gets 416 |
| RangeConformance.ServesFromTo | apps/pos-web/public/workbox-fdcc1164.js:774-817 | a range inside the body is answered with exactly its bytes, length and positions |
| RangeConformance.ServesFrom | apps/pos-web/public/workbox-fdcc1164.js:797-798 | an open range that starts inside the body is answered with everything from there |
| RangeConformance.ServesLast | apps/pos-web/public/workbox-fdcc1164.js:799 | a suffix of one byte up to the whole body is answered with the last bytes |
| RangeConformance.ConformsExactly | apps/pos-web/public/workbox-fdcc1164.js:789-801 | the condition on a range, either way, for the answer to be one RFC 7233 has for it |
| RangeConformance.RequestConformsExactly | apps/pos-web/public/workbox-fdcc1164.js:769-823 | every header, refused ones included, is answered as RFC 7233 asks exactly when its unit is bytes and it is refused where it breaks the grammar, holds one well answered range, or is a list that may be refused |
| RangeConformance.StrayTextIsRead | apps/pos-web/public/workbox-fdcc1164.js:780-787 | text before or after the numbers makes a header invalid, and yet it is read, and refused as it should be only when its last number exceeds the size |
| RangeConformance.StrayLetterIsRead | apps/pos-web/public/workbox-fdcc1164.js:780-787 | one such header, answered with status 206 where the RFC has 416 or the whole response |
| RangeConformance.ReversedIsServed | apps/pos-web/public/workbox-fdcc1164.js:789-803 | reversed positions within the body, which are invalid, are answered with an empty part |
| RangeRequests.AnnouncesByteBeyondEnd | apps/pos-web/public/workbox-fdcc1164.js:791-796 | a last position equal to the size is accepted and announced |

## Left out

- Controllers, modules, seeds, scripts and pages: plumbing and user interface.
- Queries that only filter, page and shape results: the database library does the work.
- The stock ledger: a stock movement is a row that refers to an item; whether the stock suffices is a parameter of the call.
- `recordDenominations`, `calculateCost`, sort orders, CRUD of taxes and updates of registers: single writes or sums that would add only easy members.
- Descriptive fields of rows (names, notes, contacts, modifiers of a line): copied, never decided on; an order keeps one such field.
- Clearing a required field with an explicit null in a PATCH body: the database refuses it.
- Interleaving inside one call of the sales, catalogue, order and shift services: a call is one step, so two concurrent creates with one code, SKU or order number are not modelled.
- Deleting a register while one of its expenses is being recorded, and writing its total by PATCH: the interleavings cover creation and recording.
- The deletion of a whole cache when storage runs out, while stores are under way: `delete` is modelled on its own and in the guard, not among the interleavings of one cache.
- URL parsing, request headers other than Range, other plugins, redirects, quota errors, and the fallback to the network outside install: URLs are a base with parameters, and the network is a function from requests to replies.
- Blanks and letter case beyond ASCII in a Range header, and digits beyond the exact range of JavaScript numbers: numbers are unbounded.
- A suffix range of an empty body: RFC 7233 gives it no positions to announce, and the model counts it as not satisfiable.
- Range lists of many small ranges out of order, which RFC 7233 lets a server refuse without saying how many are many; and headers with no unit at all, which count as a unit that is not understood.
- The Content-Range that RFC 7233 recommends for status 416: the code sends none, and a refusal is judged by its status.
- Floating-point rounding: amounts are exact.
- Letter case beyond ASCII in category names.
- What the database makes of an order's transaction id: the service looks it up on create only, and not when it is an empty string; a PATCH writes the one it carries.
- Years after 9999 and changes of the server's offset from UTC.
