# Retail platform: verified core

A Dafny model of the parts of this retail platform whose correctness depends on state kept over whole
runs or on exact arithmetic: the two stock stores with their reservations, event delivery, cost and
quantity arithmetic, cursor pagination, payment allocation, loyalty reversal, order contributions, the
event-fed projections and variant generation.

How it is modelled:

- A database transaction is one atomic step: it commits all its writes or, when it throws, none. Tables
  are maps and sequences; row locks and unique keys hold as the database promises them. Time is an integer.
- Each service operation is a method of a class over those tables, with the loops of the original. Its
  `ensures` equates the new state with a specification function (`ReserveTx`, `CommitTx`, `PageOf`, …);
  the lemmas then prove what that function is for, over every run or every input, and the modules ending in
  `Answers` state what each operation answers and leaves behind without naming that function's own cases.
- Quantities are thousandths, money is whole VND, decimal text is parsed and printed character by character.

| module | about |
|---|---|
| `Lex`, `Sums`, `Arith`, `Decimals`, `Texts`, `Results` | byte order, sums over maps, numbers, decimal text, pieces of text, outcomes |
| `Lines` | merging lines per SKU into one canonical sorted list |
| `BranchStock`, `BranchAnswers` | the branch store, its holds and ledger; what each operation answers and writes |
| `LockOrder`, `LockFootprint` | the lock order of both stores; the locks cover what is changed and are kept |
| `Normalize`, `WarehouseStock`, `WarehouseAnswers` | warehouse reservations with idempotency keys; what each operation answers and writes |
| `Costing` | average cost, valuation and the balance aggregate |
| `EventBus`, `EventRuntime`, `DeliveryProgress` | outbox, relay, queues, inbox, dead-letter queues and redrive as a state machine; the programs that take its steps; what the steps achieve |
| `Paginator`, `PageAnswers`, `CursorText`, `UriText` | pages by cursor; the cursor's text and its percent-encoding |
| `Allocation`, `AllocationAnswers`, `Loyalty` | payments and their lines and refusals, point reversal |
| `Contributions`, `OrderFigures` | order contributions as text and deltas; what they are by status and in sum |
| `TenantStatus`, `BranchProjection`, `ProjectionAnswers` | rows kept by events; default warehouses under events and managers' requests; what each does, row by row |
| `Variants`, `SkuCodes`, `VariantAnswers` | Cartesian product with signatures and SKU codes; their texts, order and refusals |

Where the code does not meet what it is for, the model keeps the code and the lemmas say when it does, exactly so
unless the entry says that it is one direction:

- Warehouse reservations check each line alone. When two spellings of one (warehouse, SKU) row reach one
  request, each line can fit although both together do not; the second guarded update then finds no row
  and the request fails with an internal error instead of a shortage (`ReserveOutcome`,
  `AliasedRequestCrashes`). Nothing is written.
- The paginator sorts dates by the microsecond and filters by the millisecond. On a table sorted by its unique
  keys a walk shows the whole list for every page size if and only if no two neighbours first differ in dates
  of one millisecond without the later keys, truncated, increasing (`WalkShowsTheTable`).
- The tenant-status row converges if and only if the latest events of each kind agree and, when both kinds
  occur, are not before the epoch (`ConvergesIff`).
- Without the running refund total, loyalty reversal adds up single floors (`UntrackedIs`). It agrees with the
  promise if and only if, short of the spend, the parts cut off stay below one point and, from the spend on, a
  single refund reached it or the floors come to all points (`UntrackedAgreesIff`).
- Insight's average cost, rounded twice, is one VND above inventory's exactly in the case
  `Contributions.CarriesOver` names (`AveragesAgreeOrDifferByOne`).
- Merging reservation lines by the text `warehouse:sku` confuses two pairs exactly when a piece can be moved over
  the colon (`MergeKeyIff`). Requests for the same totals normalise alike, in whatever order and splitting, if
  and only if no two pairs of the request do so (`OrderMattersIff`). UUIDs never do (`PlainPairsDiffer`).
- Variant signatures differ when no value id goes on after another of its axis with a bar, as UUIDs never do
  (`SignaturesDiffer`). This is one direction only; `SeparatorsCollide` gives the family of axes that collide
  with some second axis.
- Generated SKU codes can repeat, because tokens are cut to 8 characters and codes to 64. With tokens of code
  characters, none of which goes on after another of its axis with a dash, all codes differ if and only if on
  every axis any two values have different tokens that part before the 64th character even behind the longest
  tokens of the earlier axes (`GeneratedCodesDifferIff`). So a prefix of 63 characters leaves no room
  (`NoRoomForTokens`), and one of 64 is the code of every variant, whatever the tokens (`LongPrefixRepeats`).
- A warehouse change reads the branch's status before it locks the branch. If the branch becomes active in between,
  the change can switch off the default that the branch then lacks. The invariant is kept if and only if the change
  does not switch off the live default of a branch that is active when it is written (`InterleavedUpdateIff`);
  requests that nothing comes between never do (`UpdateKeeps`).

## Model

| member | source | states |
|---|---|---|
| BranchStock.EveryRunBalances | apps/inventory/src/stock/reservations.service.ts:220-414 | After any run of receive, reserve, release, expire and commit (late, repeated or never-held commits included): reserved = sum of held holds, 0 <= reserved <= on hand, on hand = sum of ledger changes, and receipt and sale rows carry the running count |
| BranchStock.ReserveIsAllOrNothing | apps/inventory/src/stock/reservations.service.ts:216-288 | A hold is made exactly when the total of every SKU is free; then each row's reserved grows by its total and nothing else changes, otherwise nothing changes at all |
| BranchStock.CloseUndoesReserve | apps/inventory/src/stock/reservations.service.ts:480-499 | Giving back a fresh hold restores every stock row |
| BranchStock.PostedRow | apps/inventory/src/stock/reservations.service.ts:317-361 | What a loop over merged lines leaves in one row depends only on that row and its own line |
| BranchStock.PostingKeepsBooks | apps/inventory/src/stock/reservations.service.ts:501-526 | Line by line, on hand stays the sum of the ledger and the recorded balances stay the running count |
| BranchStock.Store.Receive | apps/inventory/src/stock/stock.service.ts:65-117 | A receipt is refused for a branch that is not active, otherwise it is the receive step of the machine; the invariant is kept |
| BranchStock.Store.Reserve | apps/inventory/src/stock/reservations.service.ts:220-288 | The conditional updates in SKU order are the reserve step: created, replayed, mismatch or the exact shortages, each as `ReserveIsAllOrNothing`, `RepeatIsAnswered`, `ShortagesAre` and `NewHold` say |
| BranchStock.Store.GiveBack | apps/inventory/src/stock/reservations.service.ts:480-499 | Gives back every line of a held hold and closes it |
| BranchStock.Store.Release | apps/inventory/src/stock/reservations.service.ts:291-298 | Gives a held hold back once; any other state is left alone |
| BranchStock.Store.ExpireDue | apps/inventory/src/stock/reservations.service.ts:385-414 | A stale scan with locked rows amounts to a run of single expiry steps; the number returned is that of the overdue holds among the unlocked candidates, repeated ones counted once |
| BranchStock.Store.Commit | apps/inventory/src/stock/reservations.service.ts:306-379 | A held hold always commits; without one the free part is deducted and the gap recorded; it fails exactly on a late line with a negative total and no stock row, and then changes nothing |
| BranchAnswers.RepeatIsAnswered | apps/inventory/src/stock/reservations.service.ts:226-241 | Once a request has made a hold, and after any run that does not give it back, every further request for the order is replayed if branch, SKUs and total per SKU are the same, is a mismatch otherwise, and changes nothing |
| BranchAnswers.HoldSurvives | apps/inventory/src/stock/reservations.service.ts:226-241 | A held or committed hold keeps its branch, lines and expiry over any run that does not release or expire it |
| BranchAnswers.ShortagesAre | apps/inventory/src/stock/reservations.service.ts:250-273 | A refused reservation reports exactly the SKUs whose total is not free, each with the total asked and what is free, and changes nothing |
| BranchAnswers.NewHold | apps/inventory/src/stock/reservations.service.ts:275-286 | A new hold has the branch and expiry asked for and lines that ask for the same totals in key order; the other holds and the ledger stay |
| BranchAnswers.GivingBackIs | apps/inventory/src/stock/reservations.service.ts:290-298 | Releasing frees exactly what a held hold asks for and expiring does so exactly when its time has passed; only the status changes, and any other hold is left alone |
| BranchAnswers.SweepIs | apps/inventory/src/stock/reservations.service.ts:385-414 | A sweep over candidates expires exactly the unlocked ones that are held and whose time has passed, and leaves every other hold alone |
| BranchAnswers.CommitOfHeldIs | apps/inventory/src/stock/reservations.service.ts:306-379 | A held order is deducted from on hand and reserved by exactly its lines, with one sale row a line; a committed one is left alone |
| BranchAnswers.LateCommitIs | apps/inventory/src/stock/reservations.service.ts:306-379 | An order without a live hold is deducted by each total or by what the other holds leave free, with exactly the sale and shortfall rows for that; it fails if and only if a total is negative on a row that does not exist |
| BranchAnswers.ReceiptIs | apps/inventory/src/stock/stock.service.ts:65-117 | A receipt adds each total to its row, created if need be, and writes one receipt row a SKU with the new count |
| LockOrder.ProgramsAreOrdered | apps/inventory/src/stock/reservations.service.ts:251-258 | Every branch-store transaction takes its reservation row first and then stock rows in strictly increasing byte order |
| LockOrder.WarehouseProgramsAreOrdered | apps/inventory/src/stock/reservations.service.ts:641-661 | Every warehouse-store transaction takes its key or reservation first and then balance rows in ascending order, if the ids in lines are in the order of the rows they mean |
| LockOrder.NeverStuck | apps/inventory/src/stock/stock-lines.ts:3-21 | For any number of branch-store transactions, any lines and any schedule, some unfinished transaction can go on: no circular wait |
| LockOrder.WarehouseNeverStuck | apps/inventory/src/stock/reservations.service.ts:1018-1048 | The same for warehouse-store transactions under that condition on ids, also when a row is asked for twice |
| LockFootprint.ProgramIs | apps/inventory/src/stock/reservations.service.ts:220-361 | A branch-store transaction asks for its reservation row and for exactly the stock rows of its lines: of the lines sent, or of the hold that it gives back or deducts |
| LockFootprint.ChangesAreLocked | apps/inventory/src/stock/reservations.service.ts:220-414 | Every stock row and every hold that a branch-store transaction changes is among its locks |
| LockFootprint.WarehouseChangesAreLocked | apps/inventory/src/stock/reservations.service.ts:564-1432 | Every balance row and every reservation that a warehouse-store transaction changes is among its locks, and a new reservation has its request key locked |
| LockFootprint.LocksAreExclusive | apps/inventory/src/stock/reservations.service.ts:439-452 | In any schedule no lock is kept by two transactions, and a transaction that has ended keeps none |
| LockFootprint.StepIs | apps/inventory/src/stock/reservations.service.ts:439-452 | A step waits exactly when another transaction keeps its lock; otherwise it takes the lock and keeps it until the transaction ends |
| Lines.MergeLines | apps/inventory/src/stock/stock-lines.ts:13-21 | The Map-and-sort loop computes the canonical lines |
| Lines.CanonicalIffSameDemand | apps/inventory/src/stock/stock-lines.ts:12-21 | Two lists have the same canonical lines if and only if they ask the same total of every SKU |
| Lines.CanonicalIsSorted | apps/inventory/src/stock/stock-lines.ts:9-21 | Canonical lines are strictly increasing in byte order and name exactly the SKUs asked for |
| Lines.SameLines | apps/inventory/src/stock/stock-lines.ts:24-34 | True exactly when both lists ask for the same quantities of the same SKUs |
| Lines.KeyLessIff | apps/inventory/src/stock/stock-lines.ts:12-21 | The order of keys: the first part that differs decides, and a key that ends there comes first |
| Lex.LessIff | apps/inventory/src/stock/stock-lines.ts:12-21 | The order of texts: the first character that differs decides, and a text that ends there comes first |
| Normalize.NormalizeLines | apps/inventory/src/stock/reservations.service.ts:98-142 | For every request the parse-merge-sort loop gives one sorted line per map key, under the pair that came first, or nothing when there is no line or a quantity is not positive |
| Normalize.NormalizedIsCanonical | apps/inventory/src/stock/reservations.service.ts:98-142 | Without collisions two requests normalise alike if and only if their totals per (warehouse, SKU) are equal; with them, if and only if the totals per entry are |
| Normalize.NormalizedIff | apps/inventory/src/stock/reservations.service.ts:112-128 | The result is one line per pair with the pair's total if and only if no two pairs of the request share a map key |
| Normalize.OrderMattersIff | apps/inventory/src/stock/reservations.service.ts:98-142 | All requests for the same totals, in any order and splitting, normalise alike if and only if no two pairs of the request share a map key |
| Normalize.NormalizedTwice | apps/inventory/src/stock/reservations.service.ts:98-142 | Normalising the normalised text changes nothing |
| Normalize.MergeKeyIff | apps/inventory/src/stock/reservations.service.ts:119 | Two pairs share a map key if and only if they are equal or one is the other with a piece moved over the colon |
| Normalize.PlainPairsDiffer | apps/inventory/src/stock/reservations.service.ts:119 | With no colon in the warehouse id, as in a UUID, a map key tells its pair |
| Normalize.TwoPairsCollide | apps/inventory/src/domain/inventory-domain.ts:344 | Two different pairs with one map key |
| WarehouseStock.EveryRunBalances | apps/inventory/src/stock/reservations.service.ts:536-1432 | After any run of reserve, commit, release, expire, receive and issue: reserved = sum of HELD lines, 0 <= reserved <= on hand, valuation = on hand x average rounded, one reservation per (tenant, caller, key), and the ledger deducts each committed reservation exactly once |
| WarehouseStock.HeldClosesInFull | apps/inventory/src/stock/reservations.service.ts:1032-1087 | Every HELD reservation can be committed or released in full, so the guarded updates never miss a row |
| WarehouseStock.ReserveOutcome | apps/inventory/src/stock/reservations.service.ts:641-806 | A request under a new key is held exactly when its lines fit together; it fails internally exactly when they do not but each fits alone, which takes two lines on one row; otherwise a shortage is reported; failures change nothing |
| WarehouseStock.CheckedAloneIsEnough | apps/inventory/src/stock/reservations.service.ts:641-692 | With one line per row, the check of each line alone implies that all fit |
| WarehouseStock.TwoSpellingsCrash | apps/inventory/src/stock/reservations.service.ts:641-806 | For every warehouse and every two spellings of a SKU id, a request that passes the check and then misses its row |
| WarehouseStock.AliasedRequestCrashes | apps/inventory/src/stock/reservations.service.ts:641-806 | One such request: a UUID in two letter cases |
| WarehouseStock.SpentKeyAnswers | apps/inventory/src/stock/reservations.service.ts:567-610 | Under a used key the same request replays the same reservation and any other is a conflict; nothing changes |
| WarehouseStock.ReservationsStay | apps/inventory/src/stock/reservations.service.ts:567-610 | A reservation keeps its key, request and lines through every further run |
| WarehouseStock.Store.Reserve | apps/inventory/src/stock/reservations.service.ts:536-838 | The whole operation, with its loops, is the reserve step; the invariant is kept |
| WarehouseStock.Store.Commit | apps/inventory/src/stock/reservations.service.ts:968-1194 | The loop in row order is the commit step, whose answers and effects are those of `CommitAnswers`, `CommitWrites` and `HeldClosesInFull` |
| WarehouseStock.Store.Release | apps/inventory/src/stock/reservations.service.ts:1196-1316 | The release step: in full once, idempotent, refused after commit |
| WarehouseStock.Store.Expire | apps/inventory/src/stock/reservations.service.ts:1324-1432 | Expires exactly a HELD reservation past its time, skipping a locked row |
| WarehouseAnswers.CommitAnswers | apps/inventory/src/stock/reservations.service.ts:991-1016 | A commit is done exactly when the reservation is then committed; it is not found exactly when the tenant has none of that id, and refused, with nothing changed, exactly when it was released or has expired |
| WarehouseAnswers.ReleaseAnswers | apps/inventory/src/stock/reservations.service.ts:1225-1247 | A release is done exactly when the reservation is then released or expired, and refused exactly when it is committed |
| WarehouseAnswers.ExpireAnswers | apps/inventory/src/stock/reservations.service.ts:1336-1432 | A held reservation whose time has passed is given back row by row; any other is left alone |
| WarehouseAnswers.NewReservation | apps/inventory/src/stock/reservations.service.ts:694-730 | A new reservation remembers its key and request and falls due exactly after its seconds have passed, never with noExpiry |
| WarehouseAnswers.CommitWrites | apps/inventory/src/stock/reservations.service.ts:1032-1160 | A commit appends one ledger row a line in row order, each with what was on hand when it was written |
| WarehouseAnswers.CostsStay | apps/inventory/src/stock/reservations.service.ts:1032-1087 | No operation on reservations changes an average cost or adds or removes a balance row |
| WarehouseAnswers.KeyDecides | apps/inventory/src/stock/reservations.service.ts:566-608 | A request is answered by an earlier one exactly when tenant, calling service and trimmed key are all the same |
| WarehouseAnswers.OneReservationPerKey | apps/inventory/src/stock/reservations.service.ts:566-608 | Over any run a tenant, calling service and key have at most one reservation |
| WarehouseAnswers.RefusedAtOnce | apps/inventory/src/stock/reservations.service.ts:540-562 | The key, the quantities and the branch are refused in this order, each exactly when it is missing or bad |
| WarehouseAnswers.BranchTakesItsOwn | apps/inventory/src/stock/reservations.service.ts:612-636 | A request that names a branch takes every line from the warehouse that the branch resolves it to |
| WarehouseAnswers.ShortagesAre | apps/inventory/src/stock/reservations.service.ts:641-692 | The shortages reported are exactly the lines that do not fit alone, with what they ask and what is free, never below zero |
| WarehouseAnswers.ReceiptIs | apps/inventory/src/domain/inventory-domain.ts:253-284 | A receipt is taken exactly when it is something at a price in range that leaves the money in range; it adds its quantity and moves the average no further than its price |
| WarehouseAnswers.IssueIs | apps/inventory/src/domain/inventory-domain.ts:579-596 | An issue takes effect exactly when it is free, and takes just that at an unchanged average |
| EventBus.EffectsHappenOnce | libs/events/src/event-consumer.service.ts:76-98 | Over every interleaving of publishing, crashes, duplicates, redelivery, dead-lettering and redrive each handler of an event takes effect once if its id is in the inbox and not at all otherwise |
| EventBus.NoEventIsLost | libs/events/src/outbox-relay.service.ts:54-102 | Every emitted event's row is retryable, parked at exactly the limit or published, never both; once published or cleaned up, every subscriber with a handler has it in its queue, dead-letter queue or inbox |
| EventBus.PlayKeeps | libs/events/src/event-outbox.service.ts:24-42 | Every step of every interleaving keeps the protocol invariant, from the emitting transaction on |
| EventRuntime.OutboxRow.Publish | libs/events/src/outbox-retry.ts:14-17 | The row is published at that time and no longer pending, all else of it is as before, and a pending row in order stays in order: published, not parked, attempts below the limit |
| EventRuntime.OutboxRow.Fail | libs/events/src/outbox-retry.ts:6-38 | One attempt more; parked exactly at the limit, otherwise due again within five minutes; a pending row in order stays in order |
| EventRuntime.Runtime.RelayOnce | libs/events/src/outbox-relay.service.ts:54-91 | A pass marks each claimed row by its own publish and saves all at once; a crash leaves every row as it was while what was sent stays sent |
| EventRuntime.Runtime.HandleBody | libs/events/src/event-consumer.service.ts:76-98 | Fails exactly when handlers fail, and then leaves no trace; is a duplicate exactly when working handlers find the event in the inbox, and then has no effect; otherwise it is processed, with inbox row and all handlers together |
| EventRuntime.Runtime.Process | libs/events/src/event-consumer.service.ts:133-152 | A message whose handling succeeds is deleted unless the process dies first, and its event is in the inbox; one whose handling fails stays, with everything as it was |
| EventRuntime.Runtime.Redrive | scripts/redrive-dlq.js:18-56 | Sends before it deletes: whatever a service had it still has, wherever the script dies; only received dead messages go, each with a live copy, counted exactly; and all of them go when it survives and the maximum allows |
| DeliveryProgress.CanArriveIff | libs/events/src/outbox-retry.ts:19-38 | After any run of deliveries, crashes and retries an emitted event can still take effect at a subscriber that handles it if and only if its row is not parked or a copy has reached that service already |
| DeliveryProgress.UndisturbedRun | libs/events/src/event-consumer.service.ts:72-98 | From every state of the machine: a new event with one subscriber that is published, saved, handled and deleted without a disturbance ends in the inbox with every handler counted once, its row published and no message left |
| DeliveryProgress.HandleAnswers | libs/events/src/event-consumer.service.ts:76-98 | A message whose handlers succeed may be deleted, its event is in the inbox and each handler has taken effect once; failing handlers change nothing; without handlers it is done with at once |
| DeliveryProgress.RetryIs | libs/events/src/outbox-retry.ts:14-38 | A failed row is due again exactly when its wait is over, and never once its attempts are used up; a published row is never due |
| DeliveryProgress.BackoffIs | libs/events/src/outbox-retry.ts:3-7 | The wait starts at one second, doubles with each attempt and stops at five minutes |
| DeliveryProgress.PassIs | libs/events/src/outbox-relay.service.ts:68-88 | One publish sends its messages and marks the working copy of its own row, and nothing else |
| DeliveryProgress.EndOfPassIs | libs/events/src/outbox-relay.service.ts:88-90 | A pass saves its copies over the outbox rows it claimed once all are tried; one that dies leaves the outbox as it was |
| DeliveryProgress.MessageStepsAre | scripts/redrive-dlq.js:34-51 | A message is deleted only once handled, dies in place, comes back as the newest live message of the same service and event, and is dropped only once copied |
| DeliveryProgress.CleanupIs | libs/events/src/outbox-relay.service.ts:93-102 | Cleaning up removes exactly the rows published before the given time |
| Costing.EveryLifeIsSound | apps/inventory/src/domain/inventory-domain.ts:253-315 | Over any run of receipts and deductions, from a new balance or any sound one, the average stays within the costs received since the balance was last empty, and on hand x average differs from received less issued value by at most half the on-hand quantity per receipt |
| Costing.MovesAreCosted | apps/inventory/src/domain/inventory-domain.ts:242-315 | The movements of such a life are those of the receipt and deduction calculations on printed quantities; a deduction that is not covered is refused by both |
| Costing.RoundDivError | apps/inventory/src/domain/inventory-domain.ts:259-267 | The rounding is to a nearest integer: the error is at most one half |
| Costing.RoundDivIs | apps/inventory/src/domain/inventory-domain.ts:259-267 | Rounded division gives the nearest integer, of two equally near ones the larger |
| Costing.NewAverageIs | apps/inventory/src/domain/inventory-domain.ts:253-267 | A new average is the weighted mean of stock and receipt to the nearest VND, a half upwards |
| Costing.ValuationIs | apps/inventory/src/domain/inventory-domain.ts:268-284 | A valuation is on hand times average to the nearest VND, a half upwards |
| Costing.NumbersAre | apps/inventory/src/domain/inventory-domain.ts:104-182 | Quantities and amounts are accepted exactly with the signs allowed and in the safe range |
| Costing.DeductionAnswers | apps/inventory/src/domain/inventory-domain.ts:286-315 | For any texts a deduction succeeds exactly when they are good, the quantity is covered and the rest is in range; what is not covered is reported as insufficient |
| Costing.ReceiptAnswers | apps/inventory/src/domain/inventory-domain.ts:242-284 | For any texts a receipt succeeds exactly when they are good and the new stock is in range |
| Costing.DeductionStaysSafe | apps/inventory/src/domain/inventory-domain.ts:286-315 | A deduction never takes money out of the safe range |
| Costing.DeductionSucceeds | apps/inventory/src/domain/inventory-domain.ts:286-315 | A covered deduction succeeds through text and numbers, and is plain subtraction |
| Costing.Balance.FromRow | apps/inventory/src/domain/inventory-domain.ts:462-479 | Fields are the parsed texts; the first text or amount that does not parse is the error |
| Costing.Balance.CanSatisfy | apps/inventory/src/domain/inventory-domain.ts:512-515 | Compares the parsed quantity with what is available, or reports the parse error |
| Costing.Balance.Reserve | apps/inventory/src/domain/inventory-domain.ts:517-528 | Succeeds exactly when the text parses and is available; adds it to reserved; failure changes nothing |
| Costing.Balance.Release | apps/inventory/src/domain/inventory-domain.ts:530-541 | Succeeds exactly when the text parses and is reserved; undoes that much |
| Costing.Balance.CommitReservation | apps/inventory/src/domain/inventory-domain.ts:543-561 | Takes the quantity from on hand and reserved at unchanged average, valuation rounded half up; keeps reserved <= on hand |
| Costing.Balance.Receive | apps/inventory/src/domain/inventory-domain.ts:563-577 | Adds the quantity and moves the average to the rounded weighted mean; failure changes nothing |
| Costing.Balance.DeductAvailable | apps/inventory/src/domain/inventory-domain.ts:579-596 | Takes only free stock, from any balance, and so keeps reserved <= on hand |
| Decimals.ParseOfFormat | apps/inventory/src/domain/inventory-domain.ts:104-146 | Parsing the printed quantity gives every integer back, negative ones too |
| Decimals.FormatIsInjective | apps/inventory/src/stock/reservations.service.ts:67-89 | Distinct quantities print differently |
| Decimals.AcceptedText | apps/inventory/src/domain/inventory-domain.ts:104-121 | White space, an optional minus sign, a whole part without leading zeros and up to three decimals are read as the number that the digits say |
| Decimals.OnlyAcceptedText | apps/inventory/src/domain/inventory-domain.ts:109-116 | No other text is accepted |
| Decimals.TrimIs | apps/inventory/src/domain/inventory-domain.ts:109 | Trimming takes white space off both ends and nothing else |
| Paginator.BuildCursorQuery | apps/platform/src/utils/cursor-pagination.ts:175-199 | The loop builds one clause per key: equal on all earlier keys, beyond on this one |
| Paginator.FilterIsLexicographic | apps/platform/src/utils/cursor-pagination.ts:175-199 | The disjunction keeps exactly the rows whose truncated key is lexicographically beyond the cursor, as far as the cursor carries keys |
| Paginator.OperatorIsRight | apps/platform/src/utils/cursor-pagination.ts:201-211 | With the operator chosen for the direction, exactly the wanted rows pass |
| Paginator.PageFrom | apps/platform/src/utils/cursor-pagination.ts:84-149 | The page after row i-1 is rows i to i+limit of the listing, with both cursors as due |
| Paginator.PageUpTo | apps/platform/src/utils/cursor-pagination.ts:84-149 | The page before row i is the limit rows just before it, in listing order |
| Paginator.CursorMovesOn | apps/platform/src/utils/cursor-pagination.ts:84-149 | On any table each page leaves fewer rows ahead, so following cursors ends |
| Paginator.WalkIsTheListing | apps/platform/src/utils/cursor-pagination.ts:84-226 | For any listing and every page size the walk gives exactly that list, each row once, all pages but the last full, if and only if truncated keys strictly follow it |
| Paginator.WalkShowsTheTable | apps/platform/src/utils/cursor-pagination.ts:84-226 | For a table sorted by its unique raw keys, in either order: the walk shows it all if and only if no two neighbours blur, hence always with strings, numbers and whole-millisecond dates |
| Paginator.TruncationKeepsIff | apps/platform/src/utils/cursor-pagination.ts:184-190 | Truncation keeps two rows in order unless they first differ in dates of one millisecond and the later keys, truncated, do not increase |
| Paginator.ListingIsOrdered | apps/platform/src/utils/cursor-pagination.ts:213-226 | The listing of a sorted table is in the order asked for |
| Paginator.TableIsDetermined | apps/platform/src/utils/cursor-pagination.ts:213-226 | The rows and the order determine the listing |
| Paginator.BackReturnsThePage | apps/platform/src/utils/cursor-pagination.ts:84-226 | The beforeCursor of page k+1 returns exactly page k |
| Paginator.SameMillisecondIsLost | apps/platform/src/utils/cursor-pagination.ts:185-190 | Two rows of one millisecond: the second is never shown on pages of one |
| Paginator.Paginator.Fetch | apps/platform/src/utils/cursor-pagination.ts:120-149 | Filter, order and take give the wanted rows, one more than the page, also with a cursor that lacks keys |
| Paginator.Paginator.Paginate | apps/platform/src/utils/cursor-pagination.ts:84-118 | Data is the page's; a cursor the call does not set keeps what an earlier call on the object left |
| Paginator.BuildPaginator | apps/platform/src/utils/cursor-pagination.ts:9-40 | Missing options and a limit of zero keep their defaults |
| Paginator.FollowAfter | apps/platform/src/utils/cursor-pagination.ts:84-149 | A client that makes a new paginator for each afterCursor sees exactly the walk |
| PageAnswers.AnyPage | apps/platform/src/utils/cursor-pagination.ts:84-149 | On any table and for any cursors a page shows the first rows beyond the after-cursor, or the last before the before-cursor, in listing order, an after-cursor winning over a before-cursor; each of its own cursors is set exactly when the code says there is more that way |
| PageAnswers.ValuesCompare | apps/platform/src/utils/cursor-pagination.ts:184-190 | Numbers, moments and texts compare as such, and a date is cut to the millisecond it lies in |
| CursorText.DecodeOfEncode | apps/platform/src/utils/cursor-pagination.ts:236-259 | A row's cursor written out and read back is its key: strings and numbers unchanged, dates in whole milliseconds |
| CursorText.ValueSurvives | apps/platform/src/utils/cursor-pagination.ts:333-437 | Each value survives its text, and the text holds no separator |
| CursorText.ColumnWithoutColon | apps/platform/src/utils/cursor-pagination.ts:248-258 | A column without a colon is read as the text "undefined" for a string key and refused for a number or date |
| UriText.DecodeOfEncodeUri | apps/platform/src/utils/cursor-pagination.ts:344 | Percent-encoded UTF-8 decodes to the text it came from and holds no comma and no colon |
| UriText.SpelledOnlyUtf8 | apps/platform/src/utils/cursor-pagination.ts:429-431 | Only the shortest UTF-8 of a Unicode scalar value is read back |
| Allocation.Calculate | apps/finance/src/domain/finance-domain.ts:553-710 | The loops with their breaks, skips and errors compute the specified outcome |
| Allocation.FifoPayment | apps/finance/src/domain/finance-domain.ts:641-709 | A payment takes the smaller of itself and all that is owed, each document receiving what is left after everything owed before it; refused only as an overpayment under REJECT |
| Allocation.FifoFails | apps/finance/src/domain/finance-domain.ts:641-662 | The loop fails exactly when it meets an unusable document before the money is gone |
| Allocation.EarlierArePaidFirst | apps/finance/src/domain/finance-domain.ts:641-681 | A document that receives anything finds every earlier one paid in full |
| Allocation.PouringKeepsBalance | apps/finance/src/domain/finance-domain.ts:661-681 | Paid + adjusted + outstanding = original is kept, document by document |
| Allocation.SplittingAPayment | apps/finance/src/domain/finance-domain.ts:641-709 | Under PREPAYMENT paying p1 then p2 leaves the documents and the total overpayment of paying p1 + p2 |
| Allocation.RequestedPayment | apps/finance/src/domain/finance-domain.ts:580-640 | Explicit allocations succeed exactly when they name different documents, each fits and the total suits the policy; each document is credited exactly what was asked and stays balanced |
| AllocationAnswers.FifoLines | apps/finance/src/domain/finance-domain.ts:661-681 | Every line of a shared payment names a document with its own code, paid amount and debt before and after, and says paid exactly when nothing is left |
| AllocationAnswers.ServedLines | apps/finance/src/domain/finance-domain.ts:625-639 | The same for requests: one line each, in their order, for the amount asked |
| AllocationAnswers.RefusalIs | apps/finance/src/domain/finance-domain.ts:570-624 | A bad payment is a validation error; otherwise the first request that cannot be met gives the reason: asked twice, not found by its kind, no amount, or more than is owed |
| AllocationAnswers.ExceededIs | apps/finance/src/domain/finance-domain.ts:684-709 | Requests that fit fail only by asking for more than the payment, or for less under REJECT, with the error of their kind |
| AllocationAnswers.FifoRefusalIs | apps/finance/src/domain/finance-domain.ts:641-709 | Without requests a payment fails only on an unusable document or a rest that is not allowed |
| AllocationAnswers.SkippedOrStopped | apps/finance/src/domain/finance-domain.ts:645-659 | A settled document is passed over whatever it says was paid; a debt out of range stops the payment |
| AllocationAnswers.AmountIs | apps/finance/src/domain/finance-domain.ts:75-113 | An amount is a whole number in the safe range, zero or negative only where allowed |
| Loyalty.SplitDoesNotMatter | apps/customer/src/domain/customer-domain.ts:443-483 | With the running total, points reversed after any partial returns = floor(earned x min(refunded, spend) / spend) |
| Loyalty.FullReturnTakesAll | apps/customer/src/domain/customer-domain.ts:458-465 | Never more than earned, and all of it once fully refunded |
| Loyalty.DeferralDoesNotMatter | apps/customer/src/modules/loyalty/loyalty.service.ts:1315-1328 | Returns that came before the order completed, reversed in one go, end in the same points |
| Loyalty.UntrackedIs | apps/customer/src/domain/customer-domain.ts:485-500 | Without the running total, for any refunds: all points once a single refund reaches the spend, otherwise the single floors added up, at most all points |
| Loyalty.UntrackedFallsShort | apps/customer/src/domain/customer-domain.ts:485-500 | The shortfall for any refunds: below the spend what the cut-off parts add up to, from the spend on what the floors leave, nothing once a single refund reached it |
| Loyalty.UntrackedAgreesIff | apps/customer/src/domain/customer-domain.ts:485-500 | For any refunds: it agrees with the tracked result if and only if, below the spend, the cut-off parts stay below one point and, from the spend on, a refund reached it or the floors come to all points |
| Loyalty.ThirdsLeaveAPoint | apps/customer/src/domain/customer-domain.ts:485-500 | Three returns of a third: ten points tracked, nine untracked |
| Loyalty.ReversalIs | apps/customer/src/domain/customer-domain.ts:443-500 | For any amounts: what is taken back and what is left make up what was left before, all of it once the spend is refunded and none without a spend or refund; it is refused exactly for amounts that do not parse |
| Loyalty.AmountIs | apps/customer/src/domain/customer-domain.ts:235-268 | A missing amount counts as nothing, a number must be a safe whole one, a big integer only not negative |
| Contributions.ParseOfFormat | apps/insight/src/domain/insight-domain.ts:39-85 | Parsing printed text gives the number rounded half away from zero to the printed place, for every integer and place |
| Contributions.RoundTrip | apps/insight/src/domain/insight-domain.ts:39-85 | So every multiple of the printed place survives |
| Contributions.DeltaIsExact | apps/insight/src/domain/insight-domain.ts:279-316 | In every field a delta says exactly target less previous, through text |
| Contributions.ZeroDeltaIff | apps/insight/src/domain/insight-domain.ts:318-332 | A delta is zero if and only if no field changes, so repeating a status gives a zero delta |
| Contributions.FiguresAreTheRecount | apps/insight/src/domain/insight-domain.ts:209-332 | For any run of events of any orders the figures fed by deltas equal the sum over orders of their stored contributions |
| Contributions.FactsHoldTheLast | apps/insight/src/domain/insight-domain.ts:209-277 | What is stored for an order is the contribution of its last event, whose figures are those of `TargetIs` |
| OrderFigures.TargetIs | apps/insight/src/domain/insight-domain.ts:209-277 | Gross and net revenue, discount, cost and units count for a completed order only, merchandise value for a confirmed one too, each rounded to the nearest VND with halves away from zero; every order counts once, and as completed or cancelled by its status |
| OrderFigures.WholeTargetIs | apps/insight/src/domain/insight-domain.ts:216-229 | In whole VND every figure is exact and net revenue is gross revenue less discount |
| OrderFigures.NetIsWithinOne | apps/insight/src/domain/insight-domain.ts:216-229 | With fractions net revenue is still gross less discount to within one VND |
| OrderFigures.NetFigure | apps/insight/src/domain/insight-domain.ts:209-332 | Over any run of orders in whole VND, with any changes of state, net revenue is gross revenue less discounts |
| OrderFigures.CountsAreOrders | apps/insight/src/domain/insight-domain.ts:209-332 | Over any run the three counts are the numbers of orders seen, of those now completed and of those now cancelled |
| OrderFigures.TextIsNearest | apps/insight/src/domain/insight-domain.ts:69-85 | Printed text, read back, is the nearest number of that many decimals, halves away from zero |
| OrderFigures.LongFraction | apps/insight/src/domain/insight-domain.ts:55-67 | More than four decimals are rounded by the fifth digit |
| OrderFigures.AverageAtTheEdges | apps/insight/src/domain/insight-domain.ts:437-459 | With nothing received the average stays, and without stock it is the price paid |
| Contributions.AveragesAgreeOrDifferByOne | apps/insight/src/domain/insight-domain.ts:437-459 | Insight's average equals inventory's or is exactly one VND more, and when, stated by remainder |
| Contributions.OneVndMore | apps/insight/src/domain/insight-domain.ts:437-459 | An unending family of receipts on which they differ |
| TenantStatus.ConvergesIff | apps/integration/src/tenant-status/tenant-status.handler.ts:21-61 | All delivery orders with any redeliveries end in one row if and only if the latest events of each kind agree and are not before the epoch when both kinds occur |
| TenantStatus.DistinctTimesConverge | apps/integration/src/tenant-status/tenant-status.handler.ts:14-18 | With distinct times, none before the epoch, the row is the latest status or active, and the latest plan or null |
| TenantStatus.EveryCellIsExplained | apps/integration/src/tenant-status/tenant-status.handler.ts:21-61 | After any delivery a column holds a delivered value no older than any delivered one, or its initial value when all its own are older than the epoch |
| TenantStatus.DefaultsAre | apps/integration/src/tenant-status/tenant-status.handler.ts:21-61 | A store of which only plans are known is active, and one of which only statuses are known has no plan |
| TenantStatus.Handler.OnStatusChanged | apps/integration/src/tenant-status/tenant-status.handler.ts:21-40 | One guarded upsert of the status column; the plan and other tenants are untouched |
| TenantStatus.Handler.OnSubscriptionChanged | apps/integration/src/tenant-status/tenant-status.handler.ts:42-61 | One guarded upsert of the plan column; the status and other tenants are untouched |
| BranchProjection.ExactlyOneDefault | apps/inventory/src/branches/branch-projection.handler.ts:42-91 | After any serial run of branch events, in any order, with redeliveries and failures, and of managers creating and changing warehouses between them, an active branch has exactly one default BRANCH warehouse and it is ACTIVE |
| BranchProjection.AtMostOneDefault | apps/inventory/src/modules/warehouses/warehouses.service.ts:411-447 | Over the same runs no branch, active or not, ever has two defaults |
| BranchProjection.CreationKeeps | apps/inventory/src/modules/warehouses/warehouses.service.ts:141-231 | A new warehouse keeps ids and codes unique, one default a branch, and a live default for each active branch, whatever the branch's status was when it was read |
| BranchProjection.UpdateKeeps | apps/inventory/src/modules/warehouses/warehouses.service.ts:314-481 | So does every change a manager can make, of branch, kind, status or default, when nothing comes between its checks and its writes |
| BranchProjection.InterleavedUpdateIff | apps/inventory/src/modules/warehouses/warehouses.service.ts:399-414 | When the branch's status may have changed since it was read, the change keeps all that if and only if it does not switch off the live default of a branch active at the write |
| BranchProjection.Handler.Create | apps/inventory/src/modules/warehouses/warehouses.service.ts:147-231 | The request is the specified step: the first warehouse of a branch, or one asked for, takes the default over; the invariant is kept |
| BranchProjection.Handler.Update | apps/inventory/src/modules/warehouses/warehouses.service.ts:320-481 | The request is the specified step, with its refusals; a refusal changes nothing; the invariant is kept |
| BranchProjection.EventKeeps | apps/inventory/src/branches/default-warehouse.ts:51-129 | Every event keeps ids and codes unique, at most one default a branch, and a live default for each active branch |
| BranchProjection.RedeliveryChangesNothing | apps/inventory/src/branches/branch-projection.handler.ts:37-91 | Delivering an event again right away changes nothing, as long as the same warehouses hold stock |
| BranchProjection.ProjectionIsTheLatest | apps/inventory/src/branches/branch-projection.handler.ts:55-78 | In a run without failures the row of a branch has the code, name, kind, status and time of its strictly latest event, in whatever order they came |
| BranchProjection.FirstIsFirst | apps/inventory/src/branches/default-warehouse.ts:63-70 | No row of the branch comes before the chosen one in the query's order |
| BranchProjection.CandidateIsACode | apps/inventory/src/branches/default-warehouse.ts:20-35 | Every candidate is a code the table accepts, of at most 32 characters |
| BranchProjection.CandidatesDiffer | apps/inventory/src/branches/default-warehouse.ts:20-25 | From the second attempt on candidates are pairwise distinct |
| BranchProjection.FirstCandidateMayRepeat | apps/inventory/src/branches/default-warehouse.ts:20-25 | The first attempt can equal the second |
| BranchProjection.SearchFailsOnlyWhenFull | apps/inventory/src/branches/default-warehouse.ts:85-102 | The search fails only if at least 998 codes are taken |
| BranchProjection.Handler.Apply | apps/inventory/src/branches/branch-projection.handler.ts:42-91 | The handler is the specified step, whose effects are those of `EventProjects`, `InactiveEmpties`, `ActivePromotes` and `ActiveCreates`; a failure rolls everything back |
| BranchProjection.Handler.EnsureDefault | apps/inventory/src/branches/default-warehouse.ts:51-103 | The scan and the search loop choose, promote or create as specified |
| ProjectionAnswers.InactiveEmpties | apps/inventory/src/branches/default-warehouse.ts:111-129 | An event that is not stale and says the branch is not active succeeds, and switches off exactly the live warehouses of that branch that hold nothing |
| ProjectionAnswers.EventProjects | apps/inventory/src/branches/branch-projection.handler.ts:59-78 | An event older than the row changes nothing; any other writes the row, field by field, and no other row |
| ProjectionAnswers.ActivePromotes | apps/inventory/src/branches/default-warehouse.ts:63-83 | For an active branch with warehouses, the default, else a live one, else any, the oldest first, is made the live default unless it is the default and live or was switched off while the branch was active; no other row changes |
| ProjectionAnswers.ActiveCreates | apps/inventory/src/branches/default-warehouse.ts:85-102 | For an active branch without one, a warehouse is created under the first free code with the branch name; this fails exactly when all 999 codes or the random id are taken |
| ProjectionAnswers.CandidateIs | apps/inventory/src/branches/default-warehouse.ts:20-25 | A candidate is as much of the base as fits in 32 characters before its suffix |
| ProjectionAnswers.CodeOfBranchIs | apps/inventory/src/branches/default-warehouse.ts:27-35 | A branch code that is a warehouse code in upper case is taken as it is; otherwise letters are put in front |
| ProjectionAnswers.DashesIs | apps/inventory/src/branches/default-warehouse.ts:32 | Words stay and each run of white space between them becomes one dash |
| ProjectionAnswers.CreateIs | apps/inventory/src/modules/warehouses/warehouses.service.ts:147-231 | When a warehouse may be created, every field of it, and that it takes the default from the others exactly when it is the first or asked to |
| ProjectionAnswers.UpdateIs | apps/inventory/src/modules/warehouses/warehouses.service.ts:344-481 | What an accepted change leaves in every field of its row, and in the other rows of the branch |
| ProjectionAnswers.MoveIs | apps/inventory/src/modules/warehouses/warehouses.service.ts:368-440 | A warehouse that moves into a branch becomes its default exactly when asked, or when it is live and the branch has no other |
| ProjectionAnswers.MoveIff | apps/inventory/src/modules/warehouses/warehouses.service.ts:344-397 | Another kind or branch is accepted exactly when the warehouse is not in use, no default, keeps belonging to a branch if it does, fits its kind, and the branch entered is active |
| ProjectionAnswers.PlainChangeIff | apps/inventory/src/modules/warehouses/warehouses.service.ts:399-414 | A change of name or status is refused exactly when it switches off a warehouse in use or the default of an active branch |
| ProjectionAnswers.SetDefaultIff | apps/inventory/src/modules/warehouses/warehouses.service.ts:416-447 | Asked to be the default, a warehouse becomes it exactly when it is live; asked not to be, it is refused exactly when it is |
| Variants.Generate | apps/catalog/src/domain/catalog-domain.ts:284-382 | The validation, the nested loops, codes and signatures compute the specified result, errors in the order the code finds them |
| Variants.BuildSignature | apps/catalog/src/domain/catalog-domain.ts:221-250 | The signature, or an error exactly for a missing id or a repeated attribute |
| Variants.GeneratedIff | apps/catalog/src/domain/catalog-domain.ts:290-346 | Generation succeeds exactly with a proper SKU prefix, for distinct non-empty axes with distinct values, all ids present and a product within the limit, when every choice gets a SKU code |
| Variants.TokensGiveCodes | apps/catalog/src/domain/catalog-domain.ts:371-376 | Every choice gets a code when tokens are made of code characters, as those derived from values always are |
| Variants.GeneratedCodesDifferIff | apps/catalog/src/domain/catalog-domain.ts:366-376 | All codes of a generation, cut ones included, differ if and only if on every axis any two values have different tokens that part before the 64th character behind the longest tokens of the earlier axes |
| SkuCodes.CutCodesEqualIff | apps/catalog/src/domain/catalog-domain.ts:371-374 | Two codes whose tokens first differ in one place are equal after the cut if and only if the cut comes before these tokens part |
| Variants.NoRoomForTokens | apps/catalog/src/domain/catalog-domain.ts:371-374 | A prefix of 63 characters or more leaves no room to tell two values apart |
| Variants.LongPrefixRepeats | apps/catalog/src/domain/catalog-domain.ts:371-376 | A prefix of 64 characters is the code of every variant |
| SkuCodes.CodeIs | apps/catalog/src/domain/catalog-domain.ts:123-133 | The code is the prefix and the tokens joined by dashes, cut to 64 characters |
| Variants.GeneratedIsTheProduct | apps/catalog/src/domain/catalog-domain.ts:348-381 | It returns as many variants as the product of the axis sizes, at most the limit, each choice of values exactly once |
| Variants.SignaturesDiffer | apps/catalog/src/domain/catalog-domain.ts:217-250 | Signatures are pairwise distinct when no value id goes on after another of its axis with a bar, whatever the attribute ids |
| Variants.AxisOrderDoesNotMatter | apps/catalog/src/domain/catalog-domain.ts:245-249 | Naming the axes in another order gives the same signatures |
| Variants.SeparatorsCollide | apps/catalog/src/domain/catalog-domain.ts:245-249 | Every axis with a value id that goes on after another with a bar, a later attribute and a colon shares a signature between two choices with some second axis |
| VariantAnswers.RefusalIs | apps/catalog/src/domain/catalog-domain.ts:290-376 | Why a generation is refused, in this order: the prefix, no axes, the first axis that is bad or takes the product over the limit, then the first choice whose code is no SKU or that lacks an id |
| VariantAnswers.SignatureIs | apps/catalog/src/domain/catalog-domain.ts:221-250 | The signature is the pairs in the order of their attributes, attribute and value with a colon between and bars around; it is refused exactly for a missing id or a repeated attribute |
| VariantAnswers.VariantsAreInOrder | apps/catalog/src/domain/catalog-domain.ts:348-381 | Variants come in the order of the product |
| VariantAnswers.ProductAt | apps/catalog/src/domain/catalog-domain.ts:348-368 | In the product the last axis turns fastest |
| VariantAnswers.TokenIs | apps/catalog/src/domain/catalog-domain.ts:269-282 | A given token is taken in capitals; otherwise the first eight letters and digits of the value, or VAL if it has none |
| VariantAnswers.CodeTextIs | apps/catalog/src/domain/catalog-domain.ts:371-376 | The code is the prefix and each token behind a dash, as far as 64 characters go |
| VariantAnswers.SkuIff | apps/catalog/src/domain/catalog-domain.ts:123-133 | A SKU is a capital letter or digit and then one to 63 code characters, and nothing else is accepted |

## Left out

- Controllers, DTOs, guards, exception texts, logging and configuration; validation of request bodies enters only as the positivity of receipt and reservation quantities.
- Database, SQS and SNS behaviour beyond atomic transactions, row locks, unique keys and at-least-once delivery; message retention ends no message in the model.
- The publisher: a successful publish reaches every subscriber, a failed one any of them.
- Outbox rows enqueued under a caller's own id, poisoned message bodies and the event envelope's other fields.
- Row versions and time stamps of stock rows, outbox events written by the stock services, and the warehouse ledger's columns beyond a committed sale's quantity.
- Receiving, issuing, transfer and stocktake services: the warehouse store sees them as one receive and one issue step on a balance.
- SHA-256 of a reservation request: taken as injective, so the model keeps what it covers.
- `localeCompare` in the warehouse store and in signatures: modelled as code point order, which agrees on the lower-case UUIDs in use; byte order of SKUs is taken per code point, which UTF-8 keeps.
- Quantities and decimals passed as JavaScript numbers: they enter as their printed text.
- 32-bit and bigint column overflow, and sums of money beyond the safe-integer range that the code does not check.
- Catalogue and branch look-ups: functions of the environment that a reservation is given.
- WarehouseStock.EveryRunBalances: new reservation ids are assumed not to repeat within a run, as random UUIDs do not.
- BranchStock.EveryRunBalances: lines of receipts and reservations are positive, as the request validation demands; lines of a commit are not restricted.
- Paginator.Paginator.Paginate: a cursor is what it carries of the pagination keys up to the first it lacks; null keys, keys of declared type object, and cursors that do not decode are not modelled.
- CursorText.DecodeOfEncode: numbers are whole; fractions and exponents are not modelled, and base64 is taken as lossless.
- CursorText.ValueSurvives: numbers are whole, as above.
- Allocation.SplittingAPayment: documents satisfy the table's constraint paid + adjusted + outstanding = original with paid + outstanding in the safe range, and p1 + p2 is a safe integer.
- Contributions.FiguresAreTheRecount: one figure per field for all orders; date buckets, generations, branches and the version guard of the projection service are not modelled, and the status arrives in upper case.
- BranchProjection.Handler.Create: the code arrives normalised, and addresses are not kept.
- BranchProjection.Handler.Update: whether a warehouse holds stock, holds or open transfers is given from outside.
- Variants.Generate: names of variants are not modelled; accent stripping and upper-casing are library functions of which only that upper-casing leaves code characters alone is used.
- Variants.SignaturesDiffer: one direction; ids that violate the condition need not collide.
- Variants.GeneratedCodesDifferIff: given tokens that go on after another of their axis with a dash, or hold other than code characters, are not characterised.
- BranchProjection.ExactlyOneDefault: requests run one after the other; what can happen otherwise is the subject of `InterleavedUpdateIff`.
- DeliveryProgress.CanArriveIff: that a run exists, not that the relay and the consumers take it; attempts and redeliveries are not forced to happen.
- LockOrder.WarehouseNeverStuck: an expiry that skips a locked row is taken to wait for it, and locks of the services that receive and issue stock are one row each.
- Journals, refund and credit limits, price resolution, lifecycles, membership tiers, reports and exports: single functions with little state behind them.
- Plan quota projection: a plan event before its subscription event is dropped by design.
