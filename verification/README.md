# Settlement, execution and exact-money model of the IBKR platform

This project models the order-execution side of the platform and the exact-text
projections of its Flex and cash reports, and proves what they are relied on for.

Each component is modelled twice where the program changes state: as methods (loops,
classes, in-place updates) in the program's own form, and as the functions or state
machines those methods are proved equal to.  The theorems are about the functions and
hold for every input, every run and every interleaving.  Beside the safety theorems, each
of those functions has a theorem that says in other terms exactly what it answers: when it
accepts, when it refuses and with which reason, and what it leaves.  Their names end in
`Exactly` or `IsExact`.

## The files

| file | what it models |
|---|---|
| SettlementLog.dfy | the create-once settlement markers as a state machine: prepare, bind, stale reads, claims by any number of observers, in whatever order callers act |
| SettlementScans.dfy | which scans of the store succeed: of parts, of the whole, and over whole runs |
| SettlementStore.dfy | the store object: scanning, preparing, binding, and `observe` with its eight tries under interference |
| SettlementSummary.dfy | the summary's buckets and the receipt classifier that reads them |
| SettlementPolling.dfy | the polling loop with its two deadlines: what it asks about, how often, and when it leaves an order |
| SettlementCallers.dfy | the program's own callers of the store, interleaved at every access |
| SettledCash.dfy | the guard between a prepared buy and the broker |
| BuyLoop.dfy | the buy loop and the rotation guard in front of it |
| BudgetLaw.dfy | exactly what the loop does with each candidate, and what budget the next one gets |
| SentOrders.dfy | the orders the guard lets through during the loop |
| ExecutionClaims.dfy | cycles side by side: lock file, owner fence, one-shot claim, persistent breaker, admission and sending of orders |
| ExecutionRuns.dfy | what holds of every interleaving of cycles |
| ClaimGates.dfy | the breaker journal and the claim closure as objects |
| DecimalText.dfy | fixed-point decimal texts: grammar, value, printing |
| PeriodReturn.dfy | the NAV change text |
| FlexNumbers.dfy | canonical decimal texts |
| FlexFields.dfy, IdentityFold.dfy | field rules and the fold by native identity shared by the Flex projections |
| FlexExecutions.dfy | the projection of executed trades |
| ExternalFlow.dfy | the projection of deposits and withdrawals, and the ledger's net total |
| FlowRules.dfy | exactly which flow rows either side accepts, and what is totalled |
| FlowRepeats.dfy | exactly which repeated rows leave that total alone |
| CashDecimals.dfy, CashObservations.dfy, CashRoundTrip.dfy, CashDetails.dfy, CashDetailsRoundTrip.dfy | cash rows: decimal text, capture, build, inspect, and why they agree |
| CashRules.dfy | exactly what capture, the state of a field and an inspection are |
| SourceReceipts.dfy | binding of source receipts to designated expectations |
| ReceiptRules.dfy | exactly which expectations and records are accepted, by the shape of their texts |
| Portfolio.dfy | merging of same-symbol positions |
| Ordering.dfy, Sums.dfy, Arith.dfy, Wrappers.dfy | sorting, sums, rounding down to a step, options and results |

## How the outside world enters

- Other processes, account updates, broker answers, clock drift, crashes and what a scan
  happens to return are parameters of a run; every theorem quantifies over all of them.
- A read of the settlement store returns an arbitrary part of it.  A store operation of a
  cycle may raise without effect, raise after its effect, or return.
- Money is exact: reals in the execution model, decimal texts and integers in the
  projections.  `FloorToStep` is the greatest multiple of the step not above its argument.
- Calendar days, local times, trimming, upper-casing, the library's decimal reader, hashes
  and the candidate library are parameters.  Where a theorem needs a fact about one, the
  fact is a named premise (`ExternalFlows.Faithful`, `CashObservations.Faithful`,
  injectivity of a digest).  A hash of account and native identity is represented by
  the native identity itself.

## Where the code does less than one might expect

Each of these is proved of the code as it is: the exact condition, and a run or an input
in which it fails.

- An unknown outcome is accepted with any figures, so a log may open with a negative
  fill.  The reported fill never falls between observations, and over the whole life of a
  log exactly when its first figure is not negative (`FillsGrowExactly`; for every order
  `AnUnknownOutcomeMayOpenBelowZero` gives the run).
- `observe` accepts an outcome without an order id for an attempt whose binding it does not
  see.  Complete scans are possible at the end of a run exactly when no step bound an
  attempt after it was observed, or observed it that way after it was bound
  (`ScansStayPossibleExactly`, `BindingIsSafeExactlyBeforeObserving`).  For every order
  `BindingAfterObservingStopsScans` and `AnOrderlessEntryStopsScans` give one run of each
  kind, after which no scan ever succeeds.  The program's own callers take neither step
  (`CallersNeverStopScans`).
- The ledger counts a flow whose code is written " dep", the strict projection does not
  see it.  Repeated rows then leave the total alone exactly when a guard of the ledger
  withheld it before, or none of them is a flow (`RepeatsAreHarmlessExactly`,
  `APaddedCodeWithholdsTheTotal`).
- Rows built from a currency that is neither three capitals nor BASE give an attachment
  that its own inspector rejects (`BuiltPassesExactly`, `BuildFromTwoLetters`); a cache row
  in BASE gives details that are rejected beside an accepted attachment
  (`DetailsPassExactly`, `BuildDetailsFromBase`).  Captured rows never do either.
- As far as the submission check itself goes, a gated buy that was admitted before another
  cycle opened the account's breaker still leaves afterwards, at most one for each cycle
  (`LateBuyLeavesExactly`; for every two gated cycles of one account
  `ABuyMayLeaveAfterTheBreakerOpened` gives the run).  What the session's reservation adds
  is not part of this model.
- The guard never clears the quantity it prepared.  A session sends no more than is
  recorded for it exactly when it sends at most once, and every run stays within the cash
  exactly when sessions place at most once (`SessionWithinRecordExactly`,
  `SafeExactlyForOne`; `ADoubleSendExceedsTheCash` gives the run).

## Model

| member | source | states |
|---|---|---|
| SettlementLog.StepKeepsInv | application/order_settlement.py:35-59 | every step of every process keeps the log invariant: entries numbered, valid for the order they name, proper successors, and every decision in flight still fits |
| SettlementLog.RunKeepsInv | application/order_settlement.py:125-146 | so does every run, and nothing ever created changes |
| SettlementLog.DecisionFits | application/order_settlement.py:128-143 | a decision taken on any partial view is right about the whole store, for outcomes with and without an order id |
| SettlementLog.OutcomeIsValidExactly | application/order_settlement.py:106-123 | status by status, exactly which outcomes are valid for an order, and which of the four errors every other one gets |
| SettlementLog.DecisionExactly | application/order_settlement.py:130-145 | an outcome is appended if and only if it is valid and nothing is there, or an open entry that differs and has no larger fill; kept exactly when it tells nothing new; otherwise refused with the error named |
| SettlementLog.StepIsExact | application/order_settlement.py:35-59 | exactly what each step of a process writes |
| SettlementLog.PlaceableExactly | application/order_settlement.py:44-54 | character by character, which orders may be prepared |
| SettlementLog.OrderIdExactly | application/order_settlement.py:56-59 | a broker id is accepted exactly when it is the digits of a positive number |
| SettlementLog.Dense | application/order_settlement.py:92-102 | an entry has all entries before it, none of them terminal, none with a larger fill, all with the same order id |
| SettlementLog.EveryReachableLogIsSound | application/order_settlement.py:61-146 | under any interleaving with partial stale reads and callers in any order, every log is dense from 1, valid for the order its entries name, which is the bound one, closed by a terminal entry, with fills never falling and neighbours different |
| SettlementScans.ScanFailsExactlyOnGaps | application/order_settlement.py:61-103 | scanning any part of any reachable store fails if and only if the part is over the limit, lacks an entry's predecessors, or binds an attempt otherwise than its entries say |
| SettlementScans.CompleteScansExactly | application/order_settlement.py:61-103 | a complete scan of a reachable store raises exactly over the limit, on a binding without its order, or on a bound log without an order id |
| SettlementScans.StepSpoils | application/order_settlement.py:56-59 | the two steps, and only those, that make complete scans impossible |
| SettlementScans.ScansStayPossibleExactly | application/order_settlement.py:61-146 | over every run, complete scans are possible at the end if and only if none of those steps was taken, bound attempts are prepared and the limit is kept |
| SettlementScans.OrderlyRunsNeverRaise | application/order_settlement.py:84-102 | when binds are of prepared attempts and every outcome names its order, a complete read within the limit raises no record, sequence, order or history error, in any run |
| SettlementCallers.CallersAreOrderly | application/order_settlement.py:214-251 | whatever submissions and polls do, interleaved at every access, is a run in which binds are of prepared attempts and every outcome names its order |
| SettlementCallers.CallIsExact | application/order_settlement.py:181-251 | each call takes exactly its own step in the store and leaves its process exactly where the call leaves it, and no other process moves |
| SettlementCallers.ASubmissionIsRecorded | application/order_settlement.py:214-251 | for every order, id and valid answer, the calls that submit, bind, ask and record end with exactly that answer in the log |
| SettlementCallers.CallersNeverStopScans | application/order_settlement.py:181-251 | so no interleaving of them, with any answers and stale scans, makes a complete scan within the limit fail |
| SettlementCallers.CallersReceiptsAgree | application/execution_receipt_adapter.py:120-138 | and the receipt confirms every filled row of every summary of what they wrote, and a partial row exactly when its fill is below its quantity |
| SettlementScans.BindingIsSafeExactlyBeforeObserving | application/order_settlement.py:56-59 | binding keeps a scannable store scannable if and only if the attempt has no observation yet |
| SettlementScans.BindingAfterObservingStopsScans | application/order_settlement.py:56-59 | for every order, a run that scans before the bind and never again after it |
| SettlementScans.AnOrderlessEntryStopsScans | application/order_settlement.py:125-145 | for every order, a run that binds first, in which an observer that does not see the binding creates an entry without an order id, after which no scan succeeds |
| SettlementLog.TerminalLogIsFinal | application/order_settlement.py:130-137 | once a terminal observation exists, no later step of any process adds to or changes that log |
| SettlementLog.ReportedFillGrows | application/order_settlement.py:140-141 | between two points of a run the log only lengthens and the reported fill only grows, given a non-negative first figure |
| SettlementLog.FillsGrowExactly | application/order_settlement.py:98-101 | over the whole life of a log the reported fill never falls if and only if its first figure is not negative |
| SettlementScans.AnUnknownOutcomeMayOpenBelowZero | application/order_settlement.py:112-115 | for every order, a run in the intended order of calls whose reported fill falls below the zero of no observation |
| SettlementStores.ScannedDense | application/order_settlement.py:92-102 | a log in order has no gaps |
| SettlementStores.SettlementStore.Observations | application/order_settlement.py:92-102 | the history loop succeeds exactly on logs in order and returns them entry by entry |
| SettlementStores.SettlementStore.CheckIdentities | application/order_settlement.py:80-85 | accepts exactly stores whose every entry has its pending order under its own name and profile |
| SettlementStores.SettlementStore.Records | application/order_settlement.py:61-103 | a scan succeeds exactly on views in order and returns one record per pending order, saying what the view holds |
| SettlementStores.SettlementStore.Prepare | application/order_settlement.py:44-54 | create-once: success exactly when the fields are good and no other order is stored; it is stored then; a refusal names its reason and changes nothing |
| SettlementStores.SettlementStore.Bind | application/order_settlement.py:56-59 | create-once: success exactly on a good attempt and id without another binding; an attempt, prepared or not, keeps the first id it was given; a refusal changes nothing |
| SettlementStores.SettlementStore.Consider | application/order_settlement.py:128-143 | one decision on one scan: sound for the whole store, and exactly the one that the scanned log calls for |
| SettlementStores.SettlementStore.ObserveOnce | application/order_settlement.py:127-145 | one try under interference: on any scan it appends the outcome exactly when it is valid, may follow the last entry and the place is free, reports False exactly when it tells nothing new, and names the error otherwise; nothing else is written |
| SettlementStores.SettlementStore.Observe | application/order_settlement.py:125-146 | success means the outcome is durable or obsolete; at most one entry is added; a failure adds nothing; with a first try that nobody disturbs, the answer and the entry are exactly those of the previous row |
| SettlementStores.DecisionIsSound | application/order_settlement.py:130-143 | keeping means recorded, appending means fitting |
| SettlementStores.DecisionIsExact | application/order_settlement.py:128-143 | what is decided from a record is what the log of any scanned length calls for |
| SettlementSummaries.Summarise | application/order_settlement.py:149-178 | each list of the summary is the submitted rows kept by its condition, the option lists are empty, and reconciliation is required exactly when something is pending |
| SettlementSummaries.KeepCounts | application/order_settlement.py:165-175 | a list holds a row as often as the submitted rows do, or not at all |
| SettlementSummaries.BucketsDivideTheRows | application/order_settlement.py:165-175 | pending, filled and closed divide the submitted rows; partial rows are closed rows |
| SettlementSummaries.ConfirmedFills | application/execution_receipt_adapter.py:120-138 | true exactly when there are rows and each passes every test |
| SettlementSummaries.ScannedRecordIsSound | application/order_settlement.py:105-123 | a record scanned from any part of a reachable store has passed the outcome check, for a good order, under the order id it names |
| SettlementSummaries.RowIsExact | application/order_settlement.py:149-164 | a row repeats the order, the id and, figure by figure, the last observation; without one it is unknown and empty |
| SettlementSummaries.PlaceIsExact | application/order_settlement.py:165-178 | which list a row is in, and what it is called, by the status of its last observation |
| SettlementSummaries.RowIsConfirmedExactly | application/execution_receipt_adapter.py:120-138 | exactly which rows the classifier passes |
| SettlementSummaries.ReceiptsAgreeWithBuckets | application/execution_receipt_adapter.py:120-138 | in every summary a row is in one bucket; confirmed are exactly the filled rows that name a broker order, and exactly the partial rows that name one and whose fill is below the quantity |
| SettlementSummaries.OrderlyReceiptsAgree | application/execution_receipt_adapter.py:120-138 | when every outcome names its order, every filled row is confirmed, and a partial row exactly when its fill is below its quantity |
| SettlementSummaries.SettledRowIsPermanent | application/order_settlement.py:153-175 | after a terminal observation the row, and so its bucket, is the same in every scan that sees it, now or after any later steps |
| SettlementPolling.TerminalMeansLast | application/order_settlement.py:191 | the last observation is terminal exactly when any is |
| SettlementPolling.PollOne | application/order_settlement.py:195-210 | one order: asked until an answer is terminal or a deadline has come, and not before; at most one answer more than sleeps, each recorded or obsolete; every sleep is short |
| SettlementPolling.PollAll | application/order_settlement.py:194-210 | all orders: on success every prepared awaited order was asked about until its answer was terminal or the wait was over, or the read deadline had come; at most once per awaited order plus once per quarter second, and only about awaited orders |
| SettlementPolling.SettlementSummary | application/order_settlement.py:149-178 | the closing summary lists each record of the final scan once |
| SettlementPolling.SettlePending | application/order_settlement.py:181-211 | terminates; the call bound; never asks about an order settled at the start; on success every awaited order was attended to as above, every answer is recorded or obsolete, and the result summarises the final scan; the causes of a failure, with the batch error exactly for too many orders |
| SettledCash.RemainingIsTheLeast | application/execution_service.py:279-303 | after any trace the remaining power is the least of the budget and what every valid observation leaves, and an invalid one is never forgotten |
| SettledCash.RestrictionsOnlyTighten | application/execution_service.py:298-303 | power never comes back, invalidity is never cleared |
| SettledCash.PreparedWasAdmitted | application/execution_service.py:305-325 | a prepared quantity was admitted by an earlier call |
| SettledCash.SentOrdersAreCovered | application/execution_service.py:341-356 | an order is sent only with the prepared quantity, in the window, after no invalid observation, within the budget and within every valid observation less the reserve |
| SettledCash.UpdateExactly | application/execution_service.py:279-303 | exactly which updates count, what they leave, and which invalidate |
| SettledCash.PrepareExactly | application/execution_service.py:305-325 | an intent is admitted exactly when it is the session's own, nothing is invalid and its size is worth an order; the size is the most that the intent and 95% of the power allow |
| SettledCash.OnlyPricedAreAdmitted | application/execution_service.py:305-325 | without a positive price nothing is admitted: zero raises, below zero invalidates |
| SettledCash.PlaceExactly | application/execution_service.py:341-356 | exactly which orders are sent |
| SettledCash.SettledCashDeadline.Observe | application/execution_service.py:279-303 | an update changes the guard as one step of the state machine |
| SettledCash.SettledCashDeadline.PrepareIntent | application/execution_service.py:305-325 | so does preparation, with its answer |
| SettledCash.SettledCashDeadline.PlaceOrder | application/execution_service.py:341-356 | sends exactly when the step does |
| BuyLoop.ExecuteBuys | application/execution_service.py:2364-2500 | the loop's log, and its committed cost within the investable cash |
| BuyLoop.ClippingIsUnreachable | application/execution_service.py:2391-2421 | a planned quantity costs at most 95% of the budget, so the clipping branch never runs |
| BuyLoop.SubmitSpendsWithin | application/execution_service.py:2457-2500 | whatever happens inside a submission, spending and remaining budget stay within what it started from |
| BuyLoop.TurnSpendsWithin | application/execution_service.py:2371-2500 | one candidate spends within its budget, its approved limit and its plan, and only under the loop's conditions |
| BuyLoop.CommittedNeverExceedsBudget | application/execution_service.py:2288-2500 | over every run, all buys not reported failed, the halting unknown one included, stay within the cash fixed before the loop |
| BudgetLaw.LoopExactly | application/execution_service.py:2364-2500 | over every run, every entry is exactly what its candidate deserves at a budget that is the least of the one before it and of everything met in between, less what the entry before it committed, which is nothing for a refused order |
| BudgetLaw.TurnExactly | application/execution_service.py:2371-2500 | one candidate, condition by condition: each skip with its reason, the preview, the abort, and the order at the greatest multiple of the step within the gap and 95% of the budget, cut only by its own session |
| BudgetLaw.StopsExactly | application/execution_service.py:2288-2500 | the run ends before its last candidate exactly after an exception or an unknown outcome |
| BudgetLaw.LeastIsLeast | application/execution_service.py:2371-2390 | the least of what was met is below all of it, and one of it |
| BudgetLaw.SessionRemaining | application/execution_service.py:279-303 | a session leaves the least of its budget and what each counting update offers |
| BudgetLaw.OutcomeIsSaid | application/execution_service.py:108-171 | which outcome each status with or without an order id is |
| SentOrders.OneOrderSent | application/execution_service.py:305-356 | a submission that prepares once and places once sends nothing, or exactly the prepared quantity at its price |
| SentOrders.SentIsRecorded | application/execution_service.py:2466-2500 | what the guard sent in a turn costs no more than what the loop records for it |
| SentOrders.SentIsMultiple | application/execution_service.py:305-356 | a session sends its recorded cost as often as it was sent: the prepared quantity is never cleared |
| SentOrders.SessionWithinRecordExactly | application/execution_service.py:341-356 | a session sends no more than is recorded for it if and only if it sends at most once |
| SentOrders.SafeExactlyForOne | application/execution_service.py:2364-2500 | every run of sessions that place at most n times stays within the cash if and only if n is at most one |
| SentOrders.ADoubleSendExceedsTheCash | application/execution_service.py:341-356 | the run that shows it: two orders of 95 out of 100 in cash |
| SentOrders.SentOrdersStayWithinCash | application/execution_service.py:2364-2500 | over every run of such submissions, the orders the guard sent and the broker did not refuse stay within the investable cash, and all it sent within the rotation guard's estimate |
| BuyLoop.LogIsHonest | application/execution_service.py:120-171 | only a reported refusal counts as failed, only an answer with an order id as accepted, and nothing follows an exception or unknown outcome |
| BuyLoop.EstimatedBuyOrderCost | application/execution_service.py:1196-1227 | the estimate, or a division by zero exactly when an estimable candidate's limit price is zero |
| BuyLoop.EstimatedExactly | application/execution_service.py:1196-1227 | a candidate is estimated at the greatest multiple of the step that its gap and the cash cover, and at nothing exactly when it is not worth an order or has no positive price |
| BuyLoop.EstimateIsTheSum | application/execution_service.py:1196-1227 | the estimate of two lists is the sum of theirs |
| BuyLoop.RotationGuardBoundsTheLoop | application/execution_service.py:1196-1227 | the estimate bounds everything the loop can submit from the same state in every run, refused orders included |
| BuyLoop.RotationGuardBlocks | application/execution_service.py:1230-1258 | raises, blocks or lets through exactly by the pending sale, the zero prices and the estimate; buys let through while a sale is pending are covered by the investable cash in every run |
| ExecutionClaims.StepKeepsInv | application/rebalance_service.py:1371-1423 | every step of every cycle keeps the claims behind each submission and the order of attempts and breaker openings |
| ExecutionClaims.RunKeepsInv | application/execution_service.py:1436-1471 | so does every run |
| ExecutionClaims.ProhibitsExactly | application/account_new_risk_gate_support.py:442-470 | new risk is allowed exactly in a session, on a truthful readback of a closed breaker, without a breach or a prohibiting snapshot |
| ExecutionRuns.CycleAdvancesExactly | application/rebalance_service.py:1374-1423 | where each step takes its own cycle, phase by phase |
| ExecutionRuns.OwnerIsExact | application/rebalance_service.py:1394-1415 | the account goes to its first owner, also when the write raises once done, and the attempt is logged whatever comes of it |
| ExecutionRuns.MarkerIsExact | application/rebalance_service.py:1416-1423 | the marker goes to the first cycle that holds the account, unless it is claimed or recorded |
| ExecutionRuns.SendIsExact | application/execution_service.py:1436-1471 | what leaves is the admitted order, once, under the claims of its cycle |
| ExecutionRuns.EvaluationIsExact | application/account_new_risk_gate_support.py:442-470 | an evaluation opens the breaker exactly for a breach in a session whose write was done, and changes nothing else |
| ExecutionRuns.AdmittedExactly | application/execution_service.py:1456-1464 | exactly which orders of a claiming cycle are admitted, and what a refusal leaves |
| ExecutionRuns.AdmittedBuysWereCleared | application/execution_service.py:1456-1464 | over every run, each admitted gated buy came from an evaluation in a session, without a breach, on a truthful readback of a closed breaker |
| ExecutionRuns.SubmissionsHaveOneSource | application/execution_service.py:1436-1471 | in every interleaving, submissions for one marker or lock come from one cycle and those for one account carry one owner |
| ExecutionRuns.ClaimIsNeverRetried | application/rebalance_service.py:1374-1378 | a cycle tries to claim at most once, however the try ended |
| ExecutionRuns.ClosedCyclesNeverSubmit | application/execution_service.py:2132-2153 | a refused or ended cycle submits nothing more |
| ExecutionRuns.RefusedCyclesNeverSubmit | application/rebalance_service.py:1406-1423 | a cycle whose claim failed or raised has submitted nothing and never will |
| ExecutionRuns.OpenBreakerStopsNewRisk | application/account_new_risk_gate_support.py:457-470 | after a breaker is recorded open, no evaluation that starts afterwards admits a gated buy for that account |
| ExecutionRuns.LateBuysWereAdmittedBefore | application/execution_service.py:1456-1469 | a gated buy that leaves after the opening was admitted before it |
| ExecutionRuns.OneLateBuyPerCycle | application/execution_service.py:1456-1469 | and each cycle has at most one |
| ExecutionRuns.LateBuyLeavesExactly | application/execution_service.py:1456-1469 | exactly which buy of a cycle still leaves: the one admitted before the opening that has not left yet |
| ExecutionRuns.ABuyMayLeaveAfterTheBreakerOpened | application/execution_service.py:1456-1469 | for every two gated cycles of one account, a run in which one opens the breaker between the admission of the other's buy and the buy, and the buy leaves |
| ClaimGates.EvaluatePersistent | application/account_new_risk_gate_support.py:442-470 | prohibits exactly on a missing session, a hard brake whose write did not return, a readback that is not truthful, a breaker open afterwards or a prohibiting snapshot, with the reason named; a breach is recorded before returning |
| ClaimGates.ClaimGate.FenceOwner | application/rebalance_service.py:1385-1415 | the owner fence changes the store as one step, and holds only for the account's first owner |
| ClaimGates.ClaimGate.TakeMarker | application/rebalance_service.py:1416-1423 | the marker claim changes the store as one step, and succeeds only on a free marker |
| ClaimGates.ClaimGate.Acquire | application/rebalance_service.py:1374-1423 | the first call claims owner then marker with others acting in between; later calls repeat its answer and touch nothing |
| DecimalText.PrintedTextReadsBack | application/ibkr_period_return.py:89-92 | a printed scaled integer is accepted by the grammar and reads back with sign, digits and scale unchanged |
| DecimalText.ScaledIsInteger | application/ibkr_period_return.py:86-90 | a text with no more fraction digits than the scale is an integer after scaling |
| DecimalText.GrammarExactly | application/ibkr_flex_executions.py:25-54 | a text is accepted exactly when it is a sign or none, a whole part without a leading zero, and a dot with digits or neither, within the two lengths |
| PeriodReturn.ScaledChangeIsInteger | application/ibkr_period_return.py:86-91 | the scaled NAV change is always an integer |
| PeriodReturn.NavChangeIsExact | application/ibkr_period_return.py:53-96 | the published text reads back as exactly ending minus starting minus deposits and withdrawals, sign and leading zeros included |
| PeriodReturn.NavChangeIsWithheldExactly | application/ibkr_period_return.py:80-94 | no text exactly for a bad component, a nonzero transfer, or an over-long text |
| PeriodReturn.LongestIsLongest | application/ibkr_period_return.py:86-90 | the published fraction is as long as the longest of the six |
| PeriodReturn.NumbersExactly | application/ibkr_period_return.py:53-60 | every component must be a text of the grammar, of at most 64 characters |
| FlexNumbers.CanonicalIsNormal | application/ibkr_flex_executions.py:130-132 | the canonical text keeps the number and has no superfluous zeros |
| FlexNumbers.NormalTextsAreUnique | application/ibkr_flex_executions.py:130-132 | one normal text per number |
| FlexNumbers.CanonicalIdentifiesNumbers | application/ibkr_flex_executions.py:25-54 | canonical texts are equal if and only if the numbers are, for amounts and fees alike |
| FlexNumbers.CanonicalIsIdempotent | application/ibkr_flex_executions.py:130-132 | canonicalising twice changes nothing |
| FlexNumbers.NumbersExactly | application/ibkr_flex_executions.py:25-54 | which texts are amounts and which are fees, digit by digit |
| FlexFields.StripLeaves | application/ibkr_flex_executions.py:252-256 | stripping takes only white space from both ends, and all of it |
| FlexFields.TextExactly | application/ibkr_flex_executions.py:73-75 | a good text is one that stripping leaves as it is, not empty, within the limit, without control characters |
| IdentityFold.Fold | application/ibkr_flex_executions.py:256-318 | the loop succeeds exactly on readable, consistent, few enough rows, returns first occurrences, and otherwise names the reason of the first row that breaks this |
| IdentityFold.FirstOccurrencesSpec | application/ibkr_external_flow.py:48-54 | the entries are all identities, each once, with a value that was read |
| IdentityFold.OrderAndRepeatsDoNotMatter | application/ibkr_external_flow.py:48-54 | the same readings in any order and number are accepted alike and give the same entries |
| FlexExecutions.ProjectFlexExecutions | application/ibkr_flex_executions.py:225-318 | refuses for the first header problem, otherwise is available exactly on projectable rows with their entries, or names the first row's reason |
| FlexExecutions.ProjectableExactly | application/ibkr_flex_executions.py:258-316 | projectable if and only if every row is good attribute by attribute, rows of one identity say the same execution, and there are at most 256 identities |
| FlexExecutions.RowIsReadExactly | application/ibkr_flex_executions.py:258-302 | a row is read if and only if it names the account, level, identity and a day of the period with a local time if one is given, its terms are good field by field, and nothing marks it a correction |
| FlexExecutions.RefusalExactly | application/ibkr_flex_executions.py:263-302 | which reason a row with all required attributes is refused for |
| FlexExecutions.MissingExactly | application/ibkr_flex_executions.py:259-262 | which reason a row that lacks required attributes is refused for |
| FlexExecutions.UncorrectedExactly | application/ibkr_flex_executions.py:90-97 | the correction test: a word ca or co in the notes, or an original reference that is not empty, zero or the zero date |
| FlexExecutions.HeaderIsGoodExactly | application/ibkr_flex_executions.py:225-255 | exactly which statements and requests have their rows read, and the reason for each other |
| FlexExecutions.RowOrderAndRepeatsDoNotMatter | application/ibkr_flex_executions.py:253-318 | permuting rows and repeating them exactly changes neither status nor records |
| FlexExecutions.ConflictMakesUnavailable | application/ibkr_flex_executions.py:311-313 | two different readings of one identity leave no projection |
| FlexExecutions.EveryRowIsRecordedOnce | application/ibkr_flex_executions.py:303-318 | each row's identity is there exactly once, with what every such row says |
| FlexExecutions.EntriesAreSound | application/ibkr_flex_executions.py:276-310 | every record obeys all field rules, stands under its own identity and repeats the texts of a row digit for digit |
| ExternalFlows.ProjectExternalFlows | application/ibkr_external_flow.py:19-54 | refuses for the first header problem, otherwise says exactly what its rows are, or names the first row's reason |
| ExternalFlows.KeptLineIsAFlow | application/ibkr_external_flow.py:31-43 | a projected row is a ledger flow with the same currency, amount and identity, positive exactly for deposits, inside the period |
| FlowRules.LineIsReadExactly | application/ibkr_external_flow.py:31-47 | a row is skipped, kept or refused exactly so, with the reason, and a kept one is recorded as it stands |
| FlowRules.HeaderIsGoodExactly | application/ibkr_external_flow.py:19-30 | exactly which statements have their rows read, why the others have not, and in what scope |
| FlowRules.ProjectableExactly | application/ibkr_external_flow.py:31-52 | projectable if and only if every flow row is good, rows of one identity say the same flow, and there are at most 256 identities |
| ExternalFlows.ScanFlows | application/ibkr_flex_ledger.py:460-483 | the ledger's loop computes its entries and its three flags |
| FlowRules.LedgerLineExactly | application/ibkr_flex_ledger.py:462-483 | which rows are flows for the ledger, which give an entry, and which the strict projection does not see |
| FlowRules.FlagsExactly | application/ibkr_flex_ledger.py:460-483 | when each of the three flags is raised |
| FlowRules.TotalExactly | application/ibkr_flex_ledger.py:387-397 | no total exactly for two currencies; otherwise the count, the common currency, and the fallback for no entry |
| FlowRules.TotalAdds | application/ibkr_flex_ledger.py:387-397 | one more entry adds its amount |
| ExternalFlows.NetChoice | application/ibkr_flex_ledger.py:512-529 | when there is a net total, and which entries it adds up |
| ExternalFlows.NetExternalFlow | application/ibkr_flex_ledger.py:512-529 | the total that is selected, and the projection it may be selected from |
| ExternalFlows.LegacyIsProjected | application/ibkr_flex_ledger.py:460-483 | with distinct identities and exact codes the ledger's entries are the projected ones, in order |
| ExternalFlows.TotalIgnoresOrder | application/ibkr_flex_ledger.py:387-397 | a single-currency total does not depend on the order of entries |
| ExternalFlows.NetIsTheProjectedTotal | application/ibkr_flex_ledger.py:514-527 | with the projection available and exact codes, the net is the projected total, repeated identities or not |
| ExternalFlows.NetCountsEachIdentityOnce | application/ibkr_flex_ledger.py:460-529 | reordering flow rows and repeating them exactly leaves the net total unchanged |
| FlowRepeats.RepeatsAreHarmlessExactly | application/ibkr_flex_ledger.py:514-527 | any rows repeated any number of times, in any order, leave the net unchanged if and only if all codes are exact, or a guard of the ledger withheld the total before (an unreadable flow, a repeated identity, mixed currencies), or no flow row is repeated |
| FlowRepeats.APaddedCodeWithholdsTheTotal | application/ibkr_flex_ledger.py:466-471 | the input that shows the condition of the previous row is needed |
| CashDecimals.PrintIsExact | application/ibkr_cash_observations.py:108-117 | the decimal text has the same sign, digits, scale and number |
| CashDecimals.PrintStaysBounded | application/ibkr_cash_observations.py:112-116 | printing does not push a decimal over the serialization bound |
| CashDecimals.TextSurvivesReprojection | application/ibkr_cash_observations.py:108-117 | a text once written is written again unchanged and denotes the same number |
| CashRules.TextIsExact | application/ibkr_cash_observations.py:108-117 | a value has a text exactly when it is a decimal of at most 4096 digits and zeros, and the text has its number |
| CashObservations.CaptureCashRows | application/ibkr_cash_observations.py:120-142 | an unsupported source is refused, otherwise the wanted values become rows |
| CashObservations.BuildCashObservations | application/ibkr_cash_observations.py:145-170 | each key outside BASE is listed once, sorted, under the state and text its cells give it |
| CashObservations.InspectCashObservations | application/ibkr_cash_observations.py:173-219 | accepts exactly well-formed attachments that agree with the selected figure; fields say what the lines say |
| CashRules.CaptureIsExact | application/ibkr_cash_observations.py:120-142 | capture gives one row for every wanted value, in their order, with its own names, source and decimal text |
| CashRules.StateIsExact | application/ibkr_cash_observations.py:145-170 | a field is observed exactly when one cell alone stands under it and is representable, missing when none does |
| CashRules.InspectionIsExact | application/ibkr_cash_observations.py:173-219 | line by line, which attachments pass beside which selected figure |
| CashRules.FieldIsExact | application/ibkr_cash_observations.py:205-219 | what the lines of an attachment say of a key |
| CashRoundTrip.BuiltSaysTheState | application/ibkr_cash_observations.py:145-219 | inspection of a built attachment reports each key's own state |
| CashRoundTrip.BuiltPassesExactly | application/ibkr_cash_observations.py:145-219 | a built attachment passes if and only if the time is not empty and every row names three capitals or BASE |
| CashRoundTrip.BuildFromTwoLetters | application/ibkr_cash_observations.py:145-219 | a row in the currency "US" builds, and the result is rejected |
| CashRoundTrip.CapturedCells | application/ibkr_cash_observations.py:129-142 | the cells of captured rows are the stored values found for each key, in order |
| CashRoundTrip.CapturedIsObserved | application/ibkr_cash_observations.py:120-219 | capture, build, inspect always passes, and a field is observed exactly when one representable value was captured for it, invalid when there are values otherwise, missing when none |
| CashRoundTrip.ObserveCash | application/ibkr_cash_observations.py:120-219 | the same of the three methods run in a row |
| CashDetails.RowOrderDoesNotMatter | application/ibkr_cash_observations.py:145-170 | the attachment is the same for every order of the rows |
| CashDetails.BuildCashSourceDetails | application/ibkr_cash_observations.py:225-242 | details exactly for observed cells read from the cache |
| CashDetails.InspectCashSourceDetails | application/ibkr_cash_observations.py:281-303 | accepts exactly good, allowed, unrepeated details beside an accepted attachment |
| CashRules.DetailIsExact | application/ibkr_cash_observations.py:225-242 | a cell gives a detail exactly when it stands alone, is representable and comes from the cache |
| CashRules.DetailInspectionIsExact | application/ibkr_cash_observations.py:281-303 | which details pass beside which attachment |
| CashDetailsRoundTrip.DetailsPassExactly | application/ibkr_cash_observations.py:225-303 | details built from any rows pass if and only if the attachment beside them does and every cell that gives a detail is outside BASE with known texts |
| CashDetailsRoundTrip.BuildDetailsFromBase | application/ibkr_cash_observations.py:225-303 | a cache row in BASE: the attachment passes, the details are rejected |
| CashDetailsRoundTrip.CapturedDetailsAreAccepted | application/ibkr_cash_observations.py:225-303 | details built from captured rows are always accepted beside the attachment built from them |
| SourceReceipts.NormalizeExpectations | application/broker_reconciliation_candidate.py:112-194 | succeeds exactly on good expectations with distinct artifacts and runs and common fields; otherwise the problem is that of the first expectation that cannot be taken, with its first bad field, or the first of the checks on all of them, with the first field not shared |
| ReceiptRules.DesignationIsExact | application/broker_reconciliation_candidate.py:112-194 | exactly which designations are accepted: each expectation good text by text, artifacts and runs distinct, one origin |
| ReceiptRules.ExpectationExactly | application/broker_reconciliation_candidate.py:112-170 | which expectation is taken, and which problem every other one has |
| ReceiptRules.BodyExactly | application/broker_reconciliation_candidate.py:69-110 | the shape of every text: trimmed, hexadecimal of its length, owner and name, a workflow path |
| ReceiptRules.RecordExactly | application/broker_reconciliation_candidate.py:197-248 | which records are well formed |
| SourceReceipts.MatchesIsOneToOne | application/broker_reconciliation_candidate.py:263-275 | distinct pairs, equal artifact sets and equal provenance make a bijection |
| SourceReceipts.OneToOneMatches | application/broker_reconciliation_candidate.py:263-275 | and a bijection passes all those checks |
| SourceReceipts.CanonicalSourceReceipts | application/broker_reconciliation_candidate.py:250-285 | accepts if and only if the records are the designated receipts, each once; the result is their one canonical order |
| ReceiptRules.CanonicalOrderIsExact | application/broker_reconciliation_candidate.py:276-285 | the canonical order is by artifact and then by run, each receipt once |
| ReceiptRules.UpgradeIsExact | application/broker_reconciliation_candidate.py:330-343 | an upgrade changes the schema, the receipts and the seal, which seals all else with itself blanked |
| SourceReceipts.BuildReconciliationCandidateV2 | application/broker_reconciliation_candidate.py:305-343 | builds exactly from a v1 candidate with bound records and matching evidence members |
| SourceReceipts.ValidateReconciliationCandidateSources | application/broker_reconciliation_candidate.py:355-376 | validates exactly a v2 candidate whose binding is that of these records |
| SourceReceipts.BindingIgnoresOrder | application/broker_reconciliation_candidate.py:250-285 | acceptance and canonical order do not depend on the order of records or expectations |
| SourceReceipts.BuiltCandidateValidates | application/broker_reconciliation_candidate.py:305-376 | a built v2 candidate validates against any reordering |
| SourceReceipts.OnlyItsOwnReceiptsValidate | application/broker_reconciliation_candidate.py:355-376 | with a collision-free digest only the receipts it was built from validate it |
| Portfolios.AggregateStrategyPositions | application/ibkr_portfolio.py:57-104 | fails exactly when one symbol has two currencies; otherwise one row per symbol with that symbol's sums |
| Portfolios.PartsAddUp | application/ibkr_portfolio.py:59-84 | what is summed per symbol adds up to the whole |
| Portfolios.MergingConserves | application/ibkr_portfolio.py:57-104 | total quantity and market value are conserved, symbols are distinct and complete |
| Portfolios.AverageIsBetweenCosts | application/ibkr_portfolio.py:79-92 | an average exists exactly when a position contributes to it, and lies between the contributing costs, whatever their sign |
| Portfolios.AverageBalances | application/ibkr_portfolio.py:76-92 | a merged position holds and is worth what its symbol's positions do, and their costs, weighted by absolute quantities, balance around its average |
| Portfolios.NamesAreExact | application/ibkr_portfolio.py:86-104 | it has the currency of every such position, and names an account exactly when that is the only one they name |
| Portfolios.MergingIgnoresOrder | application/ibkr_portfolio.py:57-104 | every order of the positions merges to the same rows |

## Left out

- SettlementLog.ReportedFillGrows: has the premise that the first figure is not negative, because an unknown outcome may carry any figure (see above).
- SettlementStores.SettlementStore.Prepare: the side is one of the two from the start, and whether a time stamp names its zone is part of the stamp.
- SettlementPolling.SettlePending: the request time-out that is set on the broker connection has no effect in the model.
- SettledCash.SettledCashDeadline.PlaceOrder: the contract qualification that the guard replays is not modelled; account, currency and order fields are.
- BuyLoop.ExecuteBuys: money is real, so the rounding of limit prices and quantities to cents or shares is a given of each candidate; small-account and risk blocks before the loop are not modelled.
- SentOrders.SentOrdersStayWithinCash: that a submission prepares once and places once at its own price is a premise about the session library, which is not part of this model; SafeExactlyForOne shows that it is needed.
- ClaimGates.ClaimGate.Acquire: the session, release and intent bindings checked before the claim are not modelled, nor is the reservation of the exact intent after it.
- PeriodReturn.NavChangeIsExact: starts from the six components; the checks of source, account, model, currency and period are thin lookups.
- FlexExecutions.ProjectFlexExecutions: the diagnostic that accompanies a refusal (missing and invalid field names, shapes) is not modelled, its reason is.
- ExternalFlows.ScanFlows: entries keep currency and amount; dates, directions and warnings are not modelled.
- ExternalFlows.NetExternalFlow: warnings, fees, valuations, exchange rates and native returns of the ledger are not modelled; decimal sums are exact.
- CashObservations.InspectCashObservations: JSON shapes (unexpected keys, wrong container types) are not modelled; an attachment here has its two lists.
- CashDetails.InspectCashSourceDetails: JSON shapes are not modelled; a detail here has its key and its four texts.
- SourceReceipts.CanonicalSourceReceipts: the JSON text is represented by the ordered receipts, and the hash of it is a parameter.
- Portfolios.AggregateStrategyPositions: binary floating point is not modelled.
- Sell side: sale quantities, projected releases and the sell loop.
- The bounded refresh that produces a settled-cash figure is a parameter of the buy loop.
- Permanent-id tracking of submitted orders is modelled as a create-once entry without its event handling.
- Schedule rows of cash, cash by tag priority, account-id resolution and the windows of the flow report.
- The counters of the execution-source diagnostic; its canonical number is modelled.
- Notifications, rendering, dashboards, gateways, report download, XML parsing and configuration.
- AccountSubmissionSession and the candidate library are not part of this model; what is assumed of them is named above.
