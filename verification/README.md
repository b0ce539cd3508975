# HypeEdge: verified model of the order ledger, decimals and event delivery

This project models four cores of the HypeEdge trading backend in Dafny and proves properties of them
over all inputs and all runs:

1. **The durable order ledger.** Orders, reservations, positions, commands, the event log, the outbox, fills
   and the ledger, changed by placements, transport transitions, cancel requests, reconciled imports, fill
   ingestion and order-update ingestion; the risk check inside a placement; the execution-command lease queue;
   the children of quote plans; funding-arbitrage cycles under optimistic revisions.
2. **Fixed-point decimals.** A 128-bit integer scaled by 10^18: rounded, saturating multiplication and
   division, step rounding, half-even rounding to 28 digits, the two parsers and the two printers.
3. **Event delivery.** Bounded mailboxes and the in-process bus, the transactional outbox, and the
   server-sent-event broker and stream with replay after Last-Event-ID (section 9.2 of the WHATWG HTML standard).
4. **The sliding-window rate limiter** with key eviction.

## How it is built

- A SQL transaction is one atomic step over in-memory tables: rows are locked with `FOR UPDATE`, or changed by a
  single statement. A violated table constraint aborts the step and leaves the tables unchanged. Workers,
  crashes, redeliveries and concurrent tasks are arbitrary sequences of steps.
- Each stateful component has a specification on values (functions over datatypes) and a class whose
  methods update fields step by step and are proved to end in exactly the specified state
  (`LedgerStore.Database`, `CommandQueue.Queue`, `QuotePlan.QuotePlanStore`, `CycleStore.CycleTable`,
  `Mailbox.BoundedMailbox`, `EventBus.Registry`, `Outbox.OutboxStore`, `SseBroker.Service`,
  `SseStream.StreamState`, `Limiter.SlidingWindowLimiter`). Histories such as "everything handed out so far"
  are kept beside the state only to state properties of runs.
- Clocks, worker names, random ids, prices from the market and parsed JSON fields are parameters.
- Automatic induction is switched off throughout.

One module per file:

| files | what they hold |
|---|---|
| `Arith`, `Options`, `Digits` | integer facts, `Option`, decimal digit strings |
| `DecimalCore`, `StepRounding`, `SignificantRounding`, `DecimalText`, `LenientParse` | the decimal type |
| `RiskAdmission`, `AdmissionSoundness`, `AdmissionDecision` | the risk check, what passing it means, and when each answer is given |
| `OrderLedger`, `LedgerStore`, `LedgerWrites` | the transactions as functions, as updates of table fields, and what each writes and when it commits |
| `OrderProgress`, `EventLog`, `ReservationConservation`, `ReservationNotional`, `EndedOrders`, `PositionLimit`, `PlacementOutcome`, `LedgerCommands` | properties of ledger runs |
| `FillConvergence`, `ReservationConvergence`, `PositionConvergence`, `AveragePrice` | what the order and repetition of fills can and cannot change |
| `CommandQueue`, `CommandLease`, `QuotePlan`, `CycleStore` | the lease queues and the cycle store |
| `Mailbox`, `EventBus` | the in-process bus |
| `Outbox`, `SseBroker`, `SseStream`, `SseEmission`, `SseResync` | durable event delivery |
| `Limiter` | the rate limiter |

## Where the code and its description differ

The model follows the code. Lemmas give a concrete input or run for a difference and, where the code meets the
description only sometimes, say exactly when it does.

- `floor_to_step` goes up, not down, for steps of 2 and more when the value is close enough to the next multiple
  (`StepRounding.FloorToStepGoesUpAtTwo`; `FloorToStepExactIff` is exact for every value and positive step, quotients
  that saturate included).
- The strict and the lenient parser add the fraction without an overflow check (`DecimalText.StrictParseCanOverflow`;
  `FromPartsOverflowsIff`, `StrictOverflowsIff` and `LenientParse.LenientOverflowsIff` say for which texts).
- A strict parse of an exact text fails for magnitudes of 39 significant digits
  (`DecimalText.ExactStringRoundTrip` states exactly when it succeeds).
- The sums of the position and leverage checks saturate, so a second large buy passes although filling both exceeds
  both limits; all rows of the example fit the NUMERIC(38,18) columns (`AdmissionSoundness.SaturationCanAdmitTooMuch`).
  `OutcomesWithinIff` and `NotionalsWithinIff` say exactly which exact values have to be compared, and an admission is
  sound whenever none of the sums saturates, which can be checked before the call
  (`AdmittedPositionIsWithinLimit`, `AdmittedNotionalIsWithinLeverage`). Limits that bite below half the range never
  let a saturated sum pass (`BitingLimitNeverClamps`, `BitingLeverageNeverClamps`).
- A fill of an order the ledger does not know creates the order with that fill's size. The fills of such an order
  converge if and only if they all project the same size (`FillConvergence.UnknownOrderConvergesIff`;
  `UnknownOrdersDoNotConverge` is an instance).
- Duplicates and reordering of fills are said to be harmless. What is left of a consumed reservation depends on the
  order when a transport report raised the filled size without touching the reservation
  (`ReservationConvergence.LeftoverDependsOnOrder`: a placement, a report and two fills leave 1 or 5);
  `ReservationConvergesIff` is the exact condition, and status and active size always converge (`ReservationsConverge`).
- The projected position is overwritten by whichever fill arrives last, so an older fill delivered late sets it back
  (`PositionConvergence.LateFillSetsPositionBack`); `PositionConvergesIff` is the exact condition.
- A reconciled import can reopen a terminal order, and a fill can turn one that an update called filled into a
  partial fill (`OrderProgress.TerminalIsLeftIff`, and the run `FilledOrderIsReopened`).
- A client whose queue becomes exactly full is unsubscribed without being closed or told: in every run a publish drops
  a client exactly then (`SseBroker.PublishDropsExactlyTheJustFull`). With a queue size above zero the branch that
  closes a full mailbox (crates/api/src/sse_broker.rs:179-183) is never reached (`NoMailboxIsEverClosed`).
- Skipping an already replayed event lowers `last_sent`, so a later one is sent twice: the run
  `SseEmission.SkipCausesRepeat` emits 6, 7, 7. `EmittedExactly` says what is emitted over any run: of k received
  events that the replay covered all but the first are sent again, so something is sent twice if and only if k >= 2.
- A quote-plan child whose worker crashed after sending is reaped to pending and handed out again, although the
  file's heading says ambiguous children are never retried (the run `QuotePlan.AmbiguousChildIsHandedOutAgain`).
  `HandedOutAgainIff` says exactly when a child that was handed out is handed out again; once settled, never
  (`SettledChildIsNeverRetried`).
- A client whose Last-Event-ID is ahead of the log is told the log's sequence, but never gets the events committed
  after it up to its own id (`SseResync.NothingBelowLastEventId`, and the run `ClientAheadOfTheLogIsPassedBy`). While
  the log is empty the notice is sent again and again (`EmptyLogRepeatsNoticeRun`).
- A synchronous publish stops for good at a closed mailbox and skips its later targets, where the asynchronous one goes
  on (`EventBus.ClosedMailboxStopsSyncPublish`).
- A faulted cycle is not active, but still blocks its strategy from creating another one (the run
  `CycleStore.FaultedCycleIsNotReplaced`): without an active cycle a creation is refused if and only if there is a
  faulted one (`FaultedCycleBlocksCreate`; `CreateSucceedsIff` is the condition in general). A handle returned by a transition shows the row except for its client ids.
- A command set back to pending would be sent blindly again (`CommandQueue.PendingAgainIsBlindAgain`); no caller
  does so, and the theorem assumes it.
- Limiter calls that take the lock out of clock order can be decided differently from the plain rule, in both
  directions (the runs `Limiter.LateCallIsLetIn` and `StuckHitRefuses`). `DecidedDifferentlyIff` says exactly when, for
  any clocks: when lost hits bring the remembered count below the limit, or stuck ones do the reverse.

## Model

| member | source | states |
|---|---|---|
| DecimalCore.MulIsCorrectlyRounded | crates/domain/src/decimal.rs:331-350 | for all operands the product is the exact product rounded to the nearest raw unit, ties away from zero, then clamped to 128 bits |
| DecimalCore.DivIsCorrectlyRounded | crates/domain/src/decimal.rs:353-370 | the same for the quotient with any non-zero divisor, whatever the signs |
| DecimalCore.IntermediatesFitI256 | crates/domain/src/decimal.rs:331-370 | no intermediate of either operation overflows 256 bits |
| DecimalCore.MulIsMonotone | crates/domain/src/decimal.rs:331-350 | multiplying by a non-negative factor keeps the order through rounding and saturation |
| DecimalCore.DivIsMonotone | crates/domain/src/decimal.rs:353-370 | dividing by a positive divisor keeps the order through rounding and saturation |
| DecimalCore.DivThenMulError | crates/domain/src/decimal.rs:331-370 | without clamping, dividing and multiplying back is within b/(2*10^18) + 1/2 raw units |
| StepRounding.FloorToStepExactIff | crates/domain/src/decimal.rs:316-320 | for every value and positive step `floor_to_step` gives the multiple at or below the value if and only if that multiple and its quotient are in range and the value is more than half a quotient unit clear of the next multiple, ties by sign, or the next one's quotient saturates; out of range only one multiple of the smallest step comes out right |
| StepRounding.CeilToStepExactIff | crates/domain/src/decimal.rs:321-325 | the mirror condition for `ceil_to_step` |
| StepRounding.FloorToStepIsExact | crates/domain/src/decimal.rs:316-320 | for every positive step below 2 the result is the greatest multiple of the step at or below the value if and only if that multiple and its quotient are in range (or it is the one exception at the smallest step) |
| StepRounding.CeilToStepIsExact | crates/domain/src/decimal.rs:321-325 | the mirror statement for the least multiple at or above the value |
| StepRounding.FloorToStepGoesUpAtTwo | crates/domain/src/decimal.rs:316-320 | the bound 2 is sharp: a value and step where flooring goes up |
| Digits.SignificantDigits | crates/domain/src/decimal.rs:453-466 | the digit-counting loop returns the number of decimal digits |
| SignificantRounding.AsTuple | crates/domain/src/decimal.rs:228-240 | the loop strips exactly the trailing zeros that exponents -18 to 0 allow |
| SignificantRounding.RoundSignificantIsHalfEven | crates/domain/src/decimal.rs:411-449 | the result is the nearest multiple of the 28th digit's unit, ties to even; values of at most 28 digits stay |
| SignificantRounding.RebuildExponentIsNegative | crates/domain/src/decimal.rs:411-449 | the branch that rebuilds at a non-negative exponent is never taken |
| SignificantRounding.RoundingNeverOverflows | crates/domain/src/decimal.rs:411-449 | rounding any 128-bit value to 28 digits stays in range |
| SignificantRounding.RoundSignificantIsIdempotent | crates/domain/src/decimal.rs:407-449 | a second rounding changes nothing |
| DecimalText.MatchBodyIffSplits | crates/domain/src/decimal.rs:510-554 | the matcher accepts a body with these parts if and only if the body is that whole part, optionally followed by a point and those digits, of the strict grammar |
| DecimalText.RegexBodyMatch | crates/domain/src/decimal.rs:510-554 | the index loop computes the matcher |
| DecimalText.StrictReadsIff | crates/domain/src/decimal.rs:138-200 | a text parses strictly to a value if and only if it is a body of the grammar after an optional minus sign, with at most 18 fractional digits, and denotes that value, which is in range and from 10^38 raw units on a multiple of ten |
| DecimalText.DisplayRoundTrip | crates/domain/src/decimal.rs:724-752 | for every 128-bit value the displayed text parses strictly to exactly the value rounded half-even to 28 digits, which is in range |
| DecimalText.DisplayIsNormalForm | crates/domain/src/decimal.rs:724-787 | displaying the value parsed back from a displayed text gives the same text |
| DecimalText.ExactStringRoundTrip | crates/domain/src/decimal.rs:754-778 | parsing the exact text returns the value if and only if it has at most 38 significant digits, and is refused otherwise |
| DecimalText.FromPartsOverflowsIff | crates/domain/src/decimal.rs:170-200 | for all digits and fractions, zeros at either end included, the unchecked addition overflows if and only if the scaled whole part is in range, the sum is not, and the fraction fits 18 places with at most 17 digits after trimming |
| DecimalText.StrictOverflowsIff | crates/domain/src/decimal.rs:138-200 | a text overflows the strict parser if and only if it is a signed body of the grammar with such parts |
| DecimalText.StrictParseCanOverflow | crates/domain/src/decimal.rs:170-200 | a text of the strict grammar that overflows it |
| LenientParse.ApplyExponent | crates/domain/src/decimal.rs:595-638 | the two digit-moving loops compute the shifted mantissa |
| LenientParse.ApplyExponentIsExact | crates/domain/src/decimal.rs:595-638 | the shifted mantissa denotes exactly mantissa times ten to the exponent, for exponents of magnitude at most 40 |
| LenientParse.LenientDenotes | crates/domain/src/decimal.rs:151-168 | an accepted lenient text is its exact value truncated toward zero at 18 places |
| LenientParse.WrittenIff | crates/domain/src/decimal.rs:556-592 | a text is written as sign, mantissa and exponent if and only if between spaces it is an optional sign, digits with at most one dot, and nothing or e or E and a 32-bit integer of magnitude at most 40 |
| LenientParse.ParseI32Iff | crates/domain/src/decimal.rs:565-566 | the exponent is read exactly as an optional sign and at least one digit, within 32 bits |
| LenientParse.LenientReadsIff | crates/domain/src/decimal.rs:151-200 | such a text parses leniently to a value if and only if its number truncated at 18 places is that value, in range and from 10^38 raw units on a multiple of ten |
| LenientParse.StrictImpliesLenient | crates/domain/src/decimal.rs:138-168 | every strictly accepted text parses leniently to the same value |
| LenientParse.LenientOverflowsIff | crates/domain/src/decimal.rs:151-200 | a text overflows the lenient parser if and only if it is a number whose shifted and truncated parts overflow the addition |
| RiskAdmission.AccumulateReserved | crates/storage/src/durable_order_store.rs:401-429 | the loop accumulates the saturated reserved buys and sells of a symbol including the order |
| RiskAdmission.AccumulateNotional | crates/storage/src/durable_order_store.rs:461-533 | the loop accumulates the worst-case notional over the exposed symbols, or finds one without a price |
| RiskAdmission.CheckAndLockRiskScope | crates/storage/src/durable_order_store.rs:268-553 | the staged decision equals the specified verdict, reason by reason |
| AdmissionSoundness.ReduceOnlyIff | crates/storage/src/durable_order_store.rs:385-398 | a reduce-only order is valid if and only if it opposes the position and is no larger, with one saturating exception at the most negative size |
| AdmissionSoundness.ExposureSymbolsAreExact | crates/storage/src/durable_order_store.rs:452-459 | the ordered set holds every symbol with a position, an opening reservation or the order, once each |
| AdmissionSoundness.OutcomesWithinIff | crates/storage/src/durable_order_store.rs:401-449 | every choice of partial fills of the order and all opening reservations is within the limit if and only if both exact ends, the position plus all exact buys and minus all exact sells, fit 128 bits and are within the limit |
| AdmissionSoundness.AdmittedPositionIsWithinLimit | crates/storage/src/durable_order_store.rs:401-449 | if an opening perp order passes and no sum saturates, every choice of partial fills of it and of all opening reservations keeps size times reference price within the position limit |
| AdmissionSoundness.BitingLimitNeverClamps | crates/storage/src/durable_order_store.rs:431-449 | under a limit that bites below half the range whatever passes was summed without saturation |
| AdmissionSoundness.NotionalsWithinIff | crates/storage/src/durable_order_store.rs:451-544 | every choice of fills keeps the unsaturated total notional within the leverage limit if and only if the notional with every symbol at its farther exact end is |
| AdmissionSoundness.AdmittedNotionalIsWithinLeverage | crates/storage/src/durable_order_store.rs:451-544 | if an opening perp order passes and no size and no notional saturates, every choice of fills keeps the total notional below max_leverage times equity plus equity/(2*10^18), the slack of the rounded division |
| AdmissionSoundness.BitingLeverageNeverClamps | crates/storage/src/durable_order_store.rs:451-544 | a leverage limit that caps every priced symbol below half the range never lets a saturated notional pass |
| AdmissionSoundness.SaturationCanAdmitTooMuch | crates/storage/src/durable_order_store.rs:401-544 | with rows the tables can hold, saturation admits an order whose full fill exceeds the position limit and the leverage limit |
| AdmissionSoundness.OrdinaryOrderIsAdmitted | crates/storage/src/durable_order_store.rs:268-553 | an ordinary order passes the check and meets every condition of the soundness theorems |
| AdmissionDecision.FindPositionIs | crates/storage/src/durable_order_store.rs:559-614 | the row a symbol is looked up in is the first that carries it, and its size is zero exactly if there is none |
| AdmissionDecision.ReferencePriceIs | crates/storage/src/durable_order_store.rs:559-614 | a positive supplied price wins; else a sell is valued at the higher and a buy at the lower of its limit and the mark, with only one of them at that one, with neither at zero |
| AdmissionDecision.OpeningIs | crates/storage/src/durable_order_store.rs:401-402 | the reservations that count are all that are not reduce-only, each as often as it is there |
| AdmissionDecision.ExposurePriceIsMax | crates/storage/src/durable_order_store.rs:496-524 | a symbol is valued at the highest of its mark, its reservations' unit prices and, for the order's symbol, the reference price; at zero only without any of them |
| AdmissionDecision.EarlyAnswers | crates/storage/src/durable_order_store.rs:268-398 | when each answer is given that needs no sum: no account row, a stale one, no price, a spot order, an invalid reduction, no equity |
| AdmissionDecision.PositionRefusalIff | crates/storage/src/durable_order_store.rs:442-449 | an opening perp order is refused for its position if and only if the value of the farther exact end, at the reference price, exceeds equity times max_position_pct, both rounded |
| AdmissionDecision.AdmittedValueIsWithinPercentage | crates/storage/src/durable_order_store.rs:401-449 | in exact integers: after an admission without saturation every choice of fills keeps 2*10^18 times size times price, rounded, at or below 2 * equity * max_position_pct + 10^18 |
| AdmissionDecision.MissingPriceIff | crates/storage/src/durable_order_store.rs:526-536 | an opening order within the position limit is refused for a price if and only if some symbol with worst-case exposure has none |
| AdmissionDecision.LeverageRefusalIff | crates/storage/src/durable_order_store.rs:535-544 | otherwise it is refused for leverage if and only if the notional at the farther exact ends over equity, rounded, exceeds max_leverage, and else passes |
| AdmissionDecision.ReductionIsNotLimited | crates/storage/src/durable_order_store.rs:385-550 | a valid reduce-only order is bound by neither limit: it is refused if and only if an exposed symbol has no price |
| AdmissionDecision.QuarterOfEquityIsTheLimit | crates/storage/src/durable_order_store.rs:442-449 | with equity 1000, a quarter of it per position and leverage 5, a buy of 1 at 2000 is refused for its position |
| PositionLimit.AdmittedEnvelope | crates/storage/src/durable_order_store.rs:401-449 | after an admission without saturation both ends of the symbol's envelope, new order included, are within the limit |
| PositionLimit.FillNarrows | crates/storage/src/exchange_ingestor_store.rs:555-620 | a fill projected from the current position, no larger than its reservation, moves both ends of every envelope inwards |
| PositionLimit.OtherStepsShrink | crates/storage/src/durable_order_store.rs:653-696 | transitions, cancel requests, imports and order updates move no position and reserve nothing more |
| PositionLimit.EnvelopesShrinkBetweenAdmissions | crates/storage/src/exchange_ingestor_store.rs:555-620 | over any orderly run without an opening admission the envelope of every symbol ends inside the one it started with |
| PositionLimit.BitingMarketNeverClamps | crates/storage/src/durable_order_store.rs:110-121 | under a limit that bites below half the range every placement that goes out was summed without saturation, as orderly runs ask |
| PositionLimit.RunKeepsSafe | crates/storage/src/durable_order_store.rs:401-449 | every envelope stays within the limit over every orderly run |
| PositionLimit.PositionNeverExceedsLimit | crates/storage/src/durable_order_store.rs:401-449 | in every state of such a run the position, and every position its opening reservations can still lead to, is within the limit |
| PositionLimit.PositionNeverExceedsPercentage | crates/storage/src/durable_order_store.rs:401-449 | the same in exact integers: 2*10^18 times the value of the position, and of every position it can still become, is at most 2 * equity * max_position_pct + 10^18 |
| LedgerStore.Database.AssessPlacement | crates/storage/src/durable_order_store.rs:110-121 | sweeps, checks and withdraws the dispatch exactly as specified |
| LedgerStore.Database.Place | crates/storage/src/durable_order_store.rs:64-263 | a placement ends in exactly the specified tables and outcome, duplicates and aborts included |
| LedgerStore.Database.Transition | crates/storage/src/durable_order_store.rs:617-712 | the same for a transport transition |
| LedgerStore.Database.RequestCancel | crates/storage/src/durable_order_store.rs:715-767 | the same for a cancel request |
| LedgerStore.Database.Reconcile | crates/storage/src/durable_order_store.rs:800-913 | the same for a reconciled import |
| LedgerStore.Database.MergeReport | crates/storage/src/durable_order_store.rs:977-1030 | the field-by-field merge keeps terminal statuses, never regresses fills and refuses a changed exchange id |
| LedgerStore.Database.ApplyFillToOrder | crates/storage/src/exchange_ingestor_store.rs:237-276 | the field updates of a fill on its order |
| LedgerStore.Database.TakeFill | crates/storage/src/exchange_ingestor_store.rs:459-700 | an ingested fill ends in exactly the specified tables and outcome |
| LedgerStore.Database.TakeUpdate | crates/storage/src/exchange_ingestor_store.rs:711-910 | an ingested order update ends in exactly the specified tables and outcome |
| PlacementOutcome.PlacedOrder | crates/storage/src/durable_order_store.rs:110-180 | a placement inserts the order as requested, without exchange id and average, and rejected with the check's reason if and only if the check withdrew it |
| PlacementOutcome.PlacedReservation | crates/storage/src/durable_order_store.rs:226-255 | the reservation is written if and only if the order goes out, for its full size, at size times reference price rounded |
| PlacementOutcome.SweptIff | crates/storage/src/durable_order_store.rs:326-341 | a reservation lapses exactly if it is active, past its expiry, its order has ended and the check runs on a fresh account |
| PlacementOutcome.PlacedCommand | crates/storage/src/durable_order_store.rs:121-225 | the placement adds one command with its id and client id, pending if and only if the order goes out, and failed otherwise |
| PlacementOutcome.PlacementCommitsIff | crates/storage/src/durable_order_store.rs:64-263 | a new client id is placed unless the order breaks a table constraint, the command id or its key is taken, or the reserved notional would be negative |
| PlacementOutcome.RepeatedPlacement | crates/storage/src/durable_order_store.rs:80-108 | placing a known client id changes nothing and repeats the first answer |
| PlacementOutcome.RefusedIsNeverHandedOut | crates/storage/src/durable_order_store.rs:110-225 | over any run of ledger and worker transactions the place command of an order that did not go out is never handed to a worker |
| PlacementOutcome.AdmittedWaitsForAWorker | crates/storage/src/command_queue.rs:39-112 | over any run that of an order that goes out stays ready until it is handed out, blind and as a first attempt |
| LedgerWrites.TransitionWrites | crates/storage/src/durable_order_store.rs:617-712 | which columns of the order a report writes with what, and that a terminal status consumes or releases its active reservation and touches no other |
| LedgerWrites.TransitionSettles | crates/storage/src/durable_order_store.rs:653-668 | the command a report names takes its status and is unlocked; every other command stays |
| LedgerWrites.TransitionCommitsIff | crates/storage/src/durable_order_store.rs:977-1030 | a report commits if and only if the order is known, has no other exchange id and would not be overfilled |
| LedgerWrites.CancelWrites | crates/storage/src/durable_order_store.rs:715-767 | a first cancel request queues a command the workers can claim, a repeated one queues nothing; the order changes only its revision |
| LedgerWrites.CancelCommitsIff | crates/storage/src/durable_order_store.rs:715-767 | a cancel request of a known order commits unless a first one brings a command id that is taken |
| LedgerWrites.ImportWrites | crates/storage/src/durable_order_store.rs:800-941 | an import of a known order takes the status as it comes, never lowers the filled size, and overwrites other columns only where it brings them |
| LedgerWrites.ImportAdds | crates/storage/src/durable_order_store.rs:812-858 | an import of an unknown order inserts it at revision 1 without its average price |
| LedgerWrites.ImportCommitsIff | crates/storage/src/durable_order_store.rs:800-913 | when an import breaks no table constraint |
| LedgerWrites.FoundOrCreated | crates/storage/src/exchange_ingestor_store.rs:99-235 | the order a fact belongs to: by exchange id, else by canonical client id if that order has none yet, else a projected one; and when there is none |
| LedgerWrites.EarliestWithOid | crates/storage/src/exchange_ingestor_store.rs:105-118 | of several orders with one exchange id the earliest is found |
| LedgerWrites.ProjectedColumns | crates/storage/src/exchange_ingestor_store.rs:158-210 | the columns of a projected order, which always meet the table constraints |
| LedgerWrites.FillBooks | crates/storage/src/exchange_ingestor_store.rs:605-683 | a fill books one fill row, its profit, its fee as a debit and its external id |
| LedgerWrites.FillMovesPosition | crates/storage/src/exchange_ingestor_store.rs:330-410 | the position row of a perp fill's symbol becomes starting position plus or minus the fill, marked at its price; all other rows stay |
| LedgerWrites.FillCommitsIff | crates/storage/src/exchange_ingestor_store.rs:459-700 | a fill is a duplicate exactly by its external id, and else commits if and only if it finds an allowed order and its size and price are positive |
| LedgerWrites.TransferredIs | crates/storage/src/exchange_ingestor_store.rs:760-802 | an update gives the order the canonical client id it names, and fails if another order has it |
| LedgerWrites.UpdateWrites | crates/storage/src/exchange_ingestor_store.rs:711-910 | which columns an order update overwrites, when it takes the event's status, and that the event's status closes the reservation |
| LedgerWrites.UpdateCommitsIff | crates/storage/src/exchange_ingestor_store.rs:711-910 | an update is a duplicate exactly by its external id, and else commits if and only if the client id is free and the row allowed |
| LedgerWrites.OneEventEach | crates/storage/src/durable_order_store.rs:1083-1135 | every committed transaction appends one row to the event log and one to the outbox, named after it, with the new revision of the one order it wrote |
| LedgerWrites.CheckSeesActive | crates/storage/src/durable_order_store.rs:343-367 | the check sees each active reservation with its own columns and no other |
| EndedOrders.EndedOrderHoldsNothing | crates/storage/src/durable_order_store.rs:669-696 | over any run from the empty database every order has at most one reservation, and none that is active once the order is filled, cancelled, rejected or expired |
| OrderProgress.TransportKeepsProgress | crates/storage/src/durable_order_store.rs:977-1030 | a transport report keeps terminal statuses, partial fills and the exchange id, never lowers the filled size, and is refused exactly when the exchange id differs |
| OrderProgress.FillKeepsProgress | crates/storage/src/exchange_ingestor_store.rs:237-276 | a fill adds its size up to the order's size, and the order is filled exactly when that is reached |
| OrderProgress.UpdateKeepsTerminal | crates/storage/src/exchange_ingestor_store.rs:804-813 | an order update never takes a filled order back and leaves a terminal status only for another |
| OrderProgress.RunAdvances | crates/storage/src/durable_order_store.rs:630-712 | over any run of all six transactions no order's filled size or revision goes back and every row keeps the table's constraints |
| OrderProgress.TerminalIsLeftIff | crates/storage/src/durable_order_store.rs:919-941 | a terminal status is left if and only if the transaction is an import of a non-terminal status, or a fill that leaves an order incomplete that was already called filled |
| OrderProgress.FilledOrderIsReopened | crates/storage/src/exchange_ingestor_store.rs:264-276 | a run from the empty database in which an update calls an order filled and its first fill makes it a partial fill |
| EventLog.OnlyDoneChangesTables | crates/storage/src/exchange_ingestor_store.rs:467-472 | a duplicate or aborted transaction changes no table |
| EventLog.RunKeepsGapFree | crates/storage/src/durable_order_store.rs:1083-1135 | after any interleaving of all six transactions, the event log and the outbox of each order carry exactly the revisions 1 to the order's revision, once each and in order |
| EventLog.EventLogIsGapFree | crates/storage/src/durable_order_store.rs:1083-1135 | in particular from the empty database |
| ReservationConservation.RunConserves | crates/storage/src/exchange_ingestor_store.rs:555-603 | a balanced order stays balanced under any run that changes it only by fills and cancel requests: active means reserved plus filled is the size, consumed means reserved 0 and completely filled |
| ReservationConservation.PlacedOrderIsConserved | crates/storage/src/exchange_ingestor_store.rs:245-276 | every dispatched placement starts balanced and so stays balanced through overfills and redeliveries |
| ReservationNotional.FillKeepsUnitPrice | crates/storage/src/exchange_ingestor_store.rs:555-603 | a fill that leaves L of a reserved size R > 0 leaves a notional n' with 2*10^18 * abs(n'*R - n*L) <= R*(n + 10^18), so the unit price stays up to rounding |
| ReservationNotional.NineOfTenFilled | crates/storage/src/exchange_ingestor_store.rs:569-577 | of size 10 and notional 1000 a fill of 9 leaves 1 and 100 |
| FillConvergence.TotalsOfIngested | crates/storage/src/exchange_ingestor_store.rs:459-683 | sizes, statuses, revisions, adopted exchange ids and ledger sums after any delivery are totals over the set of external ids |
| FillConvergence.FillsConverge | crates/storage/src/exchange_ingestor_store.rs:459-683 | two deliveries of the same set of fills of the ledger's orders, found by exchange id or by a client id whose exchange id they bring, in any order with any duplicates, end with the same exchange ids, filled sizes, statuses, revisions, inbox and ledger sums |
| FillConvergence.UnacknowledgedOrderResolves | crates/storage/src/exchange_ingestor_store.rs:120-156 | the fills of an own order that has no exchange id yet meet the condition of these theorems |
| ReservationConvergence.ReservationsConverge | crates/storage/src/exchange_ingestor_store.rs:555-603 | for every order with a reservation, released ones and orders with reported fills included, two deliveries of the same set of fills end with the same reservation status, with the same size while it is active, and with the same size in every case if no more was reserved than was left to fill |
| ReservationConvergence.ReservationConvergesIff | crates/storage/src/exchange_ingestor_store.rs:555-603 | all complete deliveries agree on status and size if and only if the reservation is not active to begin with or all fills that can come up to the consuming one leave the same of it |
| ReservationConvergence.BalancedReservationsConverge | crates/storage/src/exchange_ingestor_store.rs:555-603 | in particular the reservation of a balanced order converges |
| ReservationConvergence.LeftoverDependsOnOrder | crates/storage/src/durable_order_store.rs:977-1030 | a run (placement, transport report, two fills) in which the consumed reservation keeps 1 or 5 of its size, by the order of the fills |
| PositionConvergence.PositionConvergesIff | crates/storage/src/exchange_ingestor_store.rs:335-410 | all complete deliveries agree on a symbol's position if and only if its effective perp fills project the same size and mark, and project what is there already in case fills that mark their orders as spot can preempt all of them |
| PositionConvergence.LateFillSetsPositionBack | crates/storage/src/exchange_ingestor_store.rs:335-410 | a run in which the older of two fills, delivered last, sets the position back |
| FillConvergence.UnknownOrderConvergesIff | crates/storage/src/exchange_ingestor_store.rs:158-210 | all complete deliveries of a set of new, allowed fills of one exchange id that the ledger does not know end the same if and only if the fills project the same order size |
| FillConvergence.UnknownOrdersDoNotConverge | crates/storage/src/exchange_ingestor_store.rs:158-210 | two such fills of different sizes without an original size do not converge |
| AveragePrice.StoredAverageIsNearVolumeWeighted | crates/storage/src/exchange_ingestor_store.rs:237-263 | without saturation and overfill, after n fills the stored average times the filled size is within n*(filled/2 + 10^18) squared raw units of the exact value filled |
| AveragePrice.StoredAveragesAreClose | crates/storage/src/exchange_ingestor_store.rs:237-263 | so in whatever order the fills are applied the averages differ by at most n*(1 + 2*10^18/filled) raw units |
| AveragePrice.IngestedIsFilledAll | crates/storage/src/exchange_ingestor_store.rs:459-700 | the filled size and average columns after any delivery are those of applying the effective fills one by one as they arrived |
| AveragePrice.IngestedAverageIsNear | crates/storage/src/exchange_ingestor_store.rs:237-263 | so the average column after a delivery is within that error of the volume-weighted average over the set of fills |
| AveragePrice.IngestedAveragesAreClose | crates/storage/src/exchange_ingestor_store.rs:237-263 | and the columns after two deliveries of the same set differ by at most n*(1 + 2*10^18/filled) raw units |
| CommandQueue.Queue.ExpireAll | crates/storage/src/command_queue.rs:48-66 | exactly the expired leases become unknown |
| CommandQueue.Queue.SelectReady | crates/storage/src/command_queue.rs:69-81 | returns a ready unlocked command that none precedes by priority and age, or none exists |
| CommandQueue.Queue.Claim | crates/storage/src/command_queue.rs:39-112 | a claim does what the claim step allows and marks unknown commands as needing resolution |
| CommandQueue.OnlyFirstHandoutIsBlind | crates/storage/src/command_queue.rs:48-112 | over any workers, crashes, expiries and stale deferrals each command is handed out blindly at most once |
| CommandQueue.OneCommandPerKey | crates/storage/src/durable_order_store.rs:738-753 | repeated cancel requests for a client id create one command |
| CommandQueue.PendingAgainIsBlindAgain | crates/storage/src/durable_order_store.rs:653-668 | the assumption that transitions never set pending is needed |
| CommandLease.ClaimTakesFirstDue | crates/storage/src/command_queue.rs:39-112 | a claim hands out a due, unlocked place or cancel command that no other precedes by priority and creation, leases it and makes every other command with an expired lease unknown; it hands out nothing only if none is due |
| CommandLease.DueIsHandedOut | crates/storage/src/command_queue.rs:39-112 | every due command is handed out by some claim, blind if and only if it is pending |
| CommandLease.LeaseHolds | crates/storage/src/command_queue.rs:48-66 | over any run nobody else is handed a command while its lease lasts |
| CommandLease.DeferredWaits | crates/storage/src/command_queue.rs:117-144 | a deferred command is unknown, keeps its attempts and is due again exactly from the recheck time on |
| LedgerCommands.LedgerStepIsQueueStep | crates/storage/src/durable_order_store.rs:64-263 | every ledger transaction changes the command table by at most one permitted step of the queue, so the theorems about queue runs hold of the ledger's commands |
| QuotePlan.FirstIsLeast | crates/storage/src/quote_plan_store.rs:136-150 | the claimed child is the least claimable, unlocked one by command and ordinal |
| QuotePlan.PlacementsFollowTheirCancels | crates/storage/src/quote_plan_store.rs:85-192 | across crashes, reaped leases and late records, each recorded placement comes after a recorded success of every other cancel on its plan item |
| QuotePlan.ParentsAgreeWithChildren | crates/storage/src/quote_plan_store.rs:537-587 | every parent command agrees with its children after any run |
| QuotePlan.SettledIffAllChildrenAre | crates/storage/src/quote_plan_store.rs:537-587 | a parent with a child is settled if and only if no child is open, and then to the aggregate of their statuses, which `SettledOutcomeIs` spells out |
| QuotePlan.SettledOutcomeIs | crates/storage/src/quote_plan_store.rs:537-587 | after any run a settled parent with a child is all succeeded if and only if every item of its command succeeded, unknown if and only if some item is, and failed otherwise |
| QuotePlan.RecordTakesStatus | crates/storage/src/quote_plan_store.rs:261-335 | a record gives exactly that item the recorded status, unlocked, and logs the attempt |
| QuotePlan.RecordRefusedIff | crates/storage/src/quote_plan_store.rs:261-335 | a record is refused, changing nothing, if and only if the child is unknown or the attempt is recorded already |
| QuotePlan.UnsentTakesDecision | crates/storage/src/quote_plan_store.rs:338-396 | an item finished without sending takes the status of the decision |
| QuotePlan.SettledChildIsNeverRetried | crates/storage/src/quote_plan_store.rs:85-130 | a settled child, ambiguous ones included, is never handed out again |
| QuotePlan.AmbiguousChildIsHandedOutAgain | crates/storage/src/quote_plan_store.rs:85-192 | a run that hands the same child out twice, the second time after its lease ran out, with nothing recorded in between |
| QuotePlan.PendingAgainWasReaped | crates/storage/src/quote_plan_store.rs:85-99 | in any run a child that was handed out is pending only because an earlier claim found its lease expired and reaped it |
| QuotePlan.HandedOutAgainIff | crates/storage/src/quote_plan_store.rs:85-192 | in any run a child that was handed out is handed out again if and only if it is not settled, its lease was reaped by an earlier claim or has expired for this one, and it is the first eligible unlocked child |
| QuotePlan.QuotePlanStore.ClaimNext | crates/storage/src/quote_plan_store.rs:77-192 | reaping, selection and leasing end in the specified store |
| QuotePlan.QuotePlanStore.RecordDispatch | crates/storage/src/quote_plan_store.rs:261-335 | recording an attempt ends in the specified store; a second record of an attempt aborts |
| QuotePlan.QuotePlanStore.FinishUnsentChild | crates/storage/src/quote_plan_store.rs:338-396 | finishing without sending ends in the specified store |
| CycleStore.EventsFormOneChain | crates/storage/src/funding_arb_store.rs:212-305 | with any number of concurrent holders a cycle's events have contiguous revisions, each from the state the previous one entered, and end at the row |
| CycleStore.HandleIsCurrentOrStale | crates/storage/src/funding_arb_store.rs:223-282 | a handle behind its row fails without changing anything; a current one shows its row's state |
| CycleStore.OneHolderWins | crates/storage/src/funding_arb_store.rs:223-282 | of all holders of one revision at most one succeeds, whatever happens in between |
| CycleStore.ActiveIsUnique | crates/storage/src/funding_arb_store.rs:195-210 | `get_active` has exactly one candidate when the strategy has an active cycle |
| CycleStore.CreateSucceedsIff | crates/storage/src/funding_arb_store.rs:129-192 | after any run a creation succeeds if and only if the id is new, the sizes are allowed and the cycle is closed or all cycles of its strategy are |
| CycleStore.FaultedCycleBlocksCreate | crates/storage/src/funding_arb_store.rs:129-210 | after any run a strategy without an active cycle is refused a new one if and only if it has a faulted one |
| CycleStore.FaultedCycleIsNotReplaced | crates/storage/src/funding_arb_store.rs:129-210 | a run that creates a cycle, lets it fault and is refused another one although none is active |
| CycleStore.CycleTable.Move | crates/storage/src/funding_arb_store.rs:212-340 | the conditional update, the event and the returned handle are as specified |
| CycleStore.TransitionWrites | crates/storage/src/funding_arb_store.rs:223-305 | which columns of the row a transition writes with what: sizes and errors from the updates or the handle, client ids from the updates or the row |
| CycleStore.HandleShowsRow | crates/storage/src/funding_arb_store.rs:306-340 | the returned handle shows the row but for the client ids |
| CycleStore.TransitionSucceedsIff | crates/storage/src/funding_arb_store.rs:223-282 | a transition is stale exactly for another revision, and succeeds if and only if the sizes are not negative and it closes the cycle or every other cycle of the strategy is closed |
| Mailbox.RunIsFaithful | crates/infra/src/event_bus.rs:85-190 | over every interleaving the queue is bounded, accepted reliable items come out complete and in order, what gets through is a subsequence of the arrivals, and arrivals = received + queued + dropped |
| Mailbox.NoReliableArrivalIsLost | crates/infra/src/event_bus.rs:302-313 | when only lossy items use the lossy path, reliable items come out exactly as they came in |
| Mailbox.LossyBoxHoldsLatest | crates/infra/src/event_bus.rs:109-134 | a mailbox fed only lossy items always holds the latest arrivals without a gap |
| Mailbox.BoundedMailbox.TryPut | crates/infra/src/event_bus.rs:87-103 | one pass of `put`: stores, refuses when full, reports closed |
| Mailbox.BoundedMailbox.TryPutLossy | crates/infra/src/event_bus.rs:109-134 | evicts the oldest lossy item when full, or drops the newcomer when there is none |
| Mailbox.BoundedMailbox.TryReceive | crates/infra/src/event_bus.rs:137-163 | takes the oldest item |
| Mailbox.BoundedMailbox.TryReceiveForced | crates/infra/src/event_bus.rs:434-443 | stores only when open and not full |
| EventBus.ConsumersSeeTheirEventsInOrder | crates/infra/src/event_bus.rs:234-343 | each mailbox only sees kinds it registered for, in each publisher's order, and no reliable event that arrived is missing |
| EventBus.FinishedPublishReachedAll | crates/infra/src/event_bus.rs:302-313 | over every run a publish that ran to its end reached every mailbox that was alive and registered for its kind or for everything when it began, unless closed |
| EventBus.ClosedMailboxStopsSyncPublish | crates/infra/src/event_bus.rs:319-343 | over every run a synchronous publish of a reliable event whose next mailbox is closed never finishes, and neither that mailbox nor any later target ever gets the event |
| EventBus.GivenUpReachesNoMore | crates/infra/src/event_bus.rs:334-338 | over every run a publish that gave up reaches no mailbox it had not reached before |
| EventBus.BeginTargetsAllLive | crates/infra/src/event_bus.rs:384-408 | it starts with exactly the live mailboxes registered for the kind or for everything |
| EventBus.DeliverMovesOneTarget | crates/infra/src/event_bus.rs:302-313 | delivery only moves targets from pending to done |
| EventBus.DeliverWaitsIff | crates/infra/src/event_bus.rs:302-313 | a delivery waits exactly while a reliable event faces an open full mailbox; else it passes a closed mailbox by, and every other one takes in the event at its end |
| EventBus.UnsubscribeIs | crates/infra/src/event_bus.rs:275-300 | an unsubscribed mailbox is off exactly the lists it was asked off |
| EventBus.Registry.MatchingMailboxes | crates/infra/src/event_bus.rs:384-408 | collects the live mailboxes and prunes dead ones from both lists in the same pass |
| EventBus.Registry.SubscribeMany | crates/infra/src/event_bus.rs:234-264 | registers a mailbox under each kind |
| EventBus.Registry.UnsubscribeMany | crates/infra/src/event_bus.rs:275-290 | removes a mailbox from each kind |
| Outbox.ClaimGuardsItsBatch | crates/storage/src/outbox.rs:32-78 | a claim hands out the smallest claimable sequences that no other claimer has locked, up to its limit, and leases exactly those rows |
| Outbox.LeaseIsExclusive | crates/storage/src/outbox.rs:32-128 | a published row, or a row under a lasting lease, is not handed out again by any run of claims, marks, appends and foreign releases |
| Outbox.PageContinues | crates/storage/src/outbox.rs:131-153 | reading on from a page's last event continues exactly after that page |
| Outbox.LatestBounds | crates/storage/src/outbox.rs:156-166 | the upper bound is the greatest sequence, or 0 for an empty table |
| Outbox.EarliestBounds | crates/storage/src/outbox.rs:156-166 | the lower bound is the least sequence, and there is none exactly for an empty table |
| Outbox.DueIsClaimed | crates/storage/src/outbox.rs:32-78 | a claim hands out every unpublished unlocked row that is unclaimed or past its lease, unless earlier ones take up the limit, leases it and counts the attempt; no other row changes |
| Outbox.OutboxStore.Claim | crates/storage/src/outbox.rs:32-78 | the selecting query and the row-by-row updates end in the specified rows and batch |
| Outbox.OutboxStore.Publish | crates/storage/src/outbox.rs:81-102 | the row-by-row update marks exactly the one row the worker holds and answers whether there was one; otherwise nothing changes |
| Outbox.OnlyTheHolderMarks | crates/storage/src/outbox.rs:81-128 | a mark or release touches only the row with that sequence that this worker holds unpublished, no other row with it, and once marked a row is changed by no later mark or release of anyone |
| Outbox.HolderWrites | crates/storage/src/outbox.rs:81-128 | the holder's mark publishes the row for good, its release makes it due at once; both drop the lease and keep the attempts |
| SseBroker.SeenWindowAndRing | crates/api/src/sse_broker.rs:96-170 | the seen list and set agree and hold at most 2000 distinct sequences; the ring is bounded and repeats no sequence up to size 2001 |
| SseBroker.RingIsRepeatFreeIff | crates/api/src/sse_broker.rs:96-170 | over all runs the ring never holds a sequence twice if and only if its size is at most 2001 |
| SseBroker.LongerRingCanRepeat | crates/api/src/sse_broker.rs:96-170 | a run in which any ring of size 2002 or more holds a sequence twice |
| SseBroker.ClientsSeeIncreasingSequences | crates/api/src/sse_broker.rs:173-191 | for every publish order each client's mailbox gets strictly increasing sequences above its starting cursor |
| SseBroker.ClientGetsHoleFreePrefix | crates/api/src/sse_broker.rs:151-191 | when publishes ascend a client has an exact hole-free prefix of them, all of them while subscribed and open |
| SseBroker.PublishDropsExactlyTheJustFull | crates/api/src/sse_broker.rs:173-191 | in every run a publish unsubscribes a client if and only if its event is new, above the client's cursor and takes the last place in its queue; the client stays open and gets nothing more |
| SseBroker.NoMailboxIsEverClosed | crates/api/src/sse_broker.rs:173-191 | with a queue size above zero every client in every run has an open mailbox, and room while subscribed |
| SseBroker.LatestIsGreatest | crates/api/src/sse_broker.rs:151-170 | over any run the latest sequence is the greatest accepted one, or 0 |
| SseBroker.Service.Append | crates/api/src/sse_broker.rs:96-102 | the trimming loop keeps the latest events |
| SseBroker.Service.Broadcast | crates/api/src/sse_broker.rs:173-191 | the client loop offers the event to each client and then drops full ones |
| SseBroker.Service.PublishEvent | crates/api/src/sse_broker.rs:151-170 | a publish ends in the specified broker; a seen sequence changes nothing |
| SseStream.DurableReplay | crates/api/src/sse_broker.rs:229-281 | the page loop terminates and returns nothing, one notice or exactly the events above Last-Event-ID up to the greatest sequence, in order, with other commits between the pages |
| SseStream.ReplayIsExact | crates/api/src/sse_broker.rs:229-281 | without Last-Event-ID nothing is sent; one notice if it is positive and either above every sequence or more than one below every retained one; else exactly the events above it, in order |
| SseStream.RunKeepsSysInv | crates/api/src/state.rs:216-240 | rows committed after boot reach the broker in sequence order through claims, lost marks and re-claims |
| SseStream.NoCommittedEventIsLost | crates/api/src/sse_durable.rs:53-114 | for every interleaving, on an open non-overflowed connection every committed event above Last-Event-ID was emitted, is pending, queued or still to be replayed, or is not yet relayed and ahead of the cursor |
| SseStream.FreshClientMissesNothingNew | crates/api/src/sse_durable.rs:53-114 | a connection without Last-Event-ID misses nothing committed after it connected |
| SseResync.ResyncedClientMissesNothingLater | crates/api/src/sse_durable.rs:53-114 | for every interleaving, on an open non-overflowed connection that was told to resynchronise every event above both the sequence it was told and its Last-Event-ID was emitted, is queued, or is not yet relayed and ahead of the cursor |
| SseResync.ResyncIff | crates/api/src/sse_broker.rs:244-265 | over any run a pull tells a client to resynchronise if and only if its Last-Event-ID is positive and above every committed sequence or more than one below every retained one |
| SseResync.NothingBelowLastEventId | crates/api/src/sse_broker.rs:229-281 | over every run a client gets nothing at or below its Last-Event-ID but resynchronisation notices |
| SseResync.ClientAheadOfTheLogIsPassedBy | crates/api/src/sse_broker.rs:247-265 | a run in which a client at 9 is told the log ends at 5 and the relayed 6 passes it by |
| SseResync.EmptyLogRepeatsNoticeRun | crates/api/src/sse_durable.rs:74-97 | with an empty log every two pulls send the notice again, any number of times |
| SseEmission.EmittedExactly | crates/api/src/sse_durable.rs:53-114 | over any run a connection with Last-Event-ID that has received live events has emitted exactly the unpaged read up to its replay bound and then everything received, except a first event the replay covered; an event is emitted twice if and only if at least two received ones were covered |
| SseEmission.SkipCausesRepeat | crates/api/src/sse_durable.rs:99-106 | a run from boot in which the stream emits 6, 7 and 7 again |
| SseStream.StreamState.PullOnce | crates/api/src/sse_durable.rs:66-114 | one pull of the stream updates its fields as specified |
| Limiter.DecisionsArePlain | crates/api/src/state.rs:484-520 | with calls in clock order every decision equals "fewer than limit allowed hits of this key in the last 60 seconds" |
| Limiter.AtMostLimitPerWindow | crates/api/src/state.rs:484-520 | at most limit hits of a key in any window of 60 seconds, ends included |
| Limiter.EveryDecisionIs | crates/api/src/state.rs:484-506 | for any clocks a call is allowed if and only if the plain count of the hits allowed so far, minus those forgotten inside its window, plus expired ones stuck behind a fresher hit, is below its limit |
| Limiter.DecidedDifferentlyIff | crates/api/src/state.rs:484-506 | the first decision that differs from the plain rule does so if and only if lost hits bring the count below the limit while the plain count is not, or stuck hits do the reverse |
| Limiter.LostOnlyOutOfOrder | crates/api/src/state.rs:484-520 | a hit is lost to a call only if an earlier call that came after the hit had a clock past the hit's window and later than this call's, or a call of the key that came after the hit had a clock a whole window before it |
| Limiter.StuckOnlyOutOfOrder | crates/api/src/state.rs:484-506 | a hit is stuck only behind a fresher hit allowed before it |
| Limiter.LateCallIsLetIn | crates/api/src/state.rs:484-506 | the run at 0, 61 and 30 seconds with limit 2 is allowed three times, the plain rule refuses the third |
| Limiter.StuckHitRefuses | crates/api/src/state.rs:484-506 | the run at 61, 0 and 100 seconds with limit 2 is refused the third time, the plain rule allows it |
| Limiter.PruneIs | crates/api/src/state.rs:514-520 | with 1024 keys or more exactly those not seen for two minutes are dropped, with fewer none |
| Limiter.SlidingWindowLimiter.Admit | crates/api/src/state.rs:484-506 | the popping loop and the eviction compute the specified decision and table |

## Left out

- Rounding of reserved notionals: `FillsConverge` covers exchange ids, sizes, statuses, revisions and sums; stored
  averages and notionals are rounded at each fill and do depend on the order. `IngestedAveragesAreClose` bounds it for the
  averages.
- AdmittedPositionIsWithinLimit: assumes that none of the sums saturates; `SaturationCanAdmitTooMuch` shows that it has
  to be assumed, and `OutcomesWithinIff` is the exact condition.
- AdmittedNotionalIsWithinLeverage: assumes that no size and no notional saturates; `NotionalsWithinIff` is the exact
  condition.
- PositionNeverExceedsLimit: is about orderly runs; equity, limits and prices are fixed, dispatched opening orders are
  perp and were checked without saturation, and each fill finds a perp order of the ledger, starts from the projected
  position and fits its active reservation. Reduce-only and risk-reducing orders are outside the envelope, and so is the
  account snapshot, which deletes and inserts the positions of a scope (crates/storage/src/account_state_store.rs:78-94).
- FillsConverge: is about fills that find an order of the ledger, one exchange id for each order;
  `UnknownOrderConvergesIff` is exact for the fills of one unknown exchange id.
- FloorToStepExactIff: is about positive steps; a negative tick or lot step has no meaning here.
- The status `cancel_pending`, which the orders table accepts but no value of the domain's status type maps to.
- The width of the NUMERIC(38,18) columns: a value of more than 38 digits aborts in the database, while these tables
  would keep it.
- NoCommittedEventIsLost: assumes that commits become visible in sequence order, that one relay runs and never loses a
  claimed batch, and that no outbox row is deleted during the run; a client told to resynchronise is the subject of
  `ResyncedClientMissesNothingLater`.
- PlacementsFollowTheirCancels: assumes that the children of a plan item are inserted together and that workers record
  only children they were handed, with a settled status.
- RefusedIsNeverHandedOut: assumes that workers settle and defer only commands they were handed.
- EndedOrderHoldsNothing: assumes that orders which are to go out are placed in a status that is not terminal.
- OnlyFirstHandoutIsBlind: assumes that no transition sets a command back to pending.
- Columns and tables that none of the properties read: timestamps, legacy client ids, entry price and realized
  profit of positions, risk events, cursors, error codes, JSON payloads.
- The client-id format constraint of the orders table: a fact whose client id breaks it aborts in the database.
- Funding ingestion, control events and the legacy bus-to-client path.
- Several account scopes: the model has one, in which orders, reservations and positions carry the same account. A fill of
  an order without an account writes the position row of the ingesting account, which the check of such orders does not
  read (crates/storage/src/exchange_ingestor_store.rs:339).
- Reservations and slots of quote plans, and the target order linked after a placement.
- Races inside a transaction under READ COMMITTED, such as two siblings settling at once before either sees the other.
- Decoding of JSON and databases' decimals: parsed fields are inputs.
- `quantize`, `round_to_places`, `with_exponent`, `from_scaled`, `from_f64` and the ordering and serialization traits of
  the decimal type: shorter cousins of what is modelled, or about binary floating point.
- Wake-ups and liveness: a put that waits is a step not yet taken.
- The order in which a hash map is iterated, and memory use.
