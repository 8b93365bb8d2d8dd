# Verification models for open-brain's scripts

Dafny models of the parts of `scripts/` whose correctness depends on whole histories, interleavings or text
boundaries, with the properties those scripts are written for. Check everything with `dafny verify dfyconfig.toml`.

## What is modelled

- **DREAM route memory.** One run schema holds four append-only tables: thoughts, lifecycle events, tier moves and
  apply flags. `RunSchema.Schema` has those tables as fields, and each method is proved against a pure step function
  (`DreamSteps`). `DreamHistory`, `DreamOrder` and `DreamUndoGap` then reason about every list of steps (apply a routing
  run, graduate recurring items, undo a graduation). `DreamRules` says what they write of the frozen inputs and the
  tables alone: who may relegate a rule, which verdicts become memories, which rows graduate. `DreamDatabase` is what
  the steps read. `ScopeKeys` is the latest-wins reader.
- **Resumable and concurrent drivers.** The legacy promoter over series of runs: its steps and safety
  (`LegacyPromoter`), what becomes of each row of a run (`PromoterRows`), where its full batches end
  (`PromoterBatches`), when finitely many runs finish (`PromoterProgress`) and when they never do (`PromoterJams`). The
  paid-attempt guard over every schedule of its calls (`PaidGuard`) and exactly what stops it (`PaidRules`). The
  embedding backfill pool under an arbitrary scheduler (`BackfillPool`), and near-duplicate archiving on a table that
  changes under the loop (`Curate`).
- **Comparators and verifiers.** Trace equivalence (`TraceDiff`, and by the evidence itself `TraceRules`), migration
  history compatibility (`Migrations`), contract versions by the numbers they print (`ContractRules`), backup
  verification (`BackupVerify`), and the frozen route cohort (`Cohort`, and row by row `CohortRules`).
- **Text machines.** The restates pair sheet, printed and read back (`PairSheet`), what it shows and which sheets are
  read (`SheetRules`), and the streaming scanner for wrapped AWS-style secrets (`AwsScanner`).

`Sorting`, `Projections`, `Rounds`, `Wrappers` and `Text` are shared helpers.

## What the proofs found

- **An undo can leave its graduation standing, in two ways.** `undoGraduate` writes nothing when *any* relegate of the
  key exists, even one older than the promote; and the relegate it writes carries its transaction's own time, so a
  promote whose transaction began later but committed first outdates it. `UndoRetiresExactly` says that these are the
  only two, for all tables and clocks. `UndoneYetStanding` (a rule reversal that targets a graduation key before it
  graduates) and `OutdatedUndoStands` (a graduation at time 5, an undo at time 3) are reachable histories of each. A
  second undo does not help: it finds a relegate and writes nothing.
- **Order matters only when a tie is contested.** `OrderFreeExactly`: the latest-wins reader is independent of row order
  exactly when no key has both a promote and a relegate at its newest time.
- **Applies and graduations commute up to credit.** `OrderIndependence` needs only equal *sets* of applied runs and of
  graduated runs and thresholds; order, repeats and clocks do not matter.
- **Sub-millisecond rows can stop the promoter.** The promoter's cursor drops microseconds. No row is ever lost by that
  (`NoRunLosesARow`), but rows at or before the cursor's own row are read again: those of its millisecond that lie
  strictly inside it, and those at its start under a greater id (`RescannedExactly`). So full batches can end where they
  ended before. `FinitelyManyRunsSettleAll` is the exact condition: from every state that earlier runs over the same
  rows can leave behind, finitely many runs settle everything if and only if no listed table holds a *trap* for the
  batch size. A trap is a set of rows strictly inside one millisecond, with a later row behind them, each of which leads
  to another of them: from a row with `w` rows at the start of its millisecond under greater ids, the batches next end
  inside the millisecond on its row number `size - w mod size`. Where no millisecond mixes rows at its start with rows
  inside it, a trap is just a batch's worth of rows inside one millisecond and any later row (`UnmixedTrapsExactly`);
  otherwise even a single inside row can be one (`LoneRowTrapsExactly`). Fewer rows than a batch in every millisecond is
  always safe (`FewRowsPerMillisecondFinish`), and a batch's worth inside one millisecond is never safe, whatever the
  answers, caps, dry runs and new rows (`CrowdJamsEveryRun`).
- **The pair sheet quotes after newline only.** The reader's multiline `^` also starts a line after carriage return,
  U+2028 and U+2029. `RoundTripExactly` is the exact condition for the round trip; `CarriageReturnBreaksTheSheet` is the
  family of inputs that fails, and `NewlinesNeverStray` says text without those three characters never does.
- **Migration acceptance composes** without assuming that the intermediate repository has no legacy names.
- **The draw.** The number of drawn rows lies in [f*N, f*N + number of non-empty strata) unless no stratum has a row;
  then that interval is empty and the draw takes exactly nothing (`DrawIsTight`).

## Model

| member | source | states |
|---|---|---|
| ScopeKeys.ActiveScopeKeys | scripts/dream-route-graduate.ts:108-123 | Returns sorted, duplicate-free keys: exactly those whose newest decisive event (ties broken by position) is a promote |
| ScopeKeys.SortedLastIsNewest | scripts/dream-route-graduate.ts:111-118 | The last decisive event after the stable sort is the newest one by the plain definition, and there is none exactly when no event decides |
| ScopeKeys.IndecisiveIgnored | scripts/dream-route-graduate.ts:113-117 | Keyless events and other actions, inserted anywhere, never change which keys stand |
| ScopeKeys.OrderFreeExactly | scripts/dream-route-graduate.ts:108-123 | No rearrangement of the events changes any key, if and only if no key's newest time is contested |
| ScopeKeys.OneListForAllOrders | scripts/dream-route-graduate.ts:108-123 | Uncontested events give one and the same list of keys in whatever order their rows are read |
| ScopeKeys.AppendNeverRevives | scripts/dream-route-graduate.ts:108-123 | Appending anything but a promote of the key leaves a retired key retired, whatever its timestamp |
| ScopeKeys.AppendRelegateExactly | scripts/dream-route-graduate.ts:108-123 | After appending a relegate the key stands exactly when its newest decisive event before was a promote newer than the relegate |
| ScopeKeys.AppendRelegateRetires | scripts/dream-route-graduate.ts:108-123 | Appending a relegate no older than the rest retires the key |
| DreamDatabase.ReadSignalsMembers | scripts/dream-route-apply-signals.ts:92-136 | The signals read are exactly the run's own rows, each with the authority tier of its candidate's decision |
| DreamDatabase.TargetMembers | scripts/dream-route-graduate.ts:177-214 | A row is a graduation target exactly when it is decided, graduating, and carries the threshold of distinct sessions over itself and its decided repeats |
| DreamDatabase.ObservedRowsIgnored | scripts/dream-route-graduate.ts:177-214 | Targets depend on the decided rows and the verdicts about them only |
| DreamDatabase.AddingObservedChangesNothing | scripts/dream-route-graduate.ts:177-214 | Inserting an observed candidate anywhere, with any verdict and any reinforces link, leaves the targets as they were |
| DreamDatabase.MoreRepeatsKeepGraduates | scripts/dream-route-graduate.ts:177-214 | More decided rows, repeats or sessions, or a lower threshold, never lose a target |
| RunSchema.Schema.InsertTierMove | scripts/dream-route-apply.ts:255-269 | Appends one tier move and nothing else |
| RunSchema.Schema.InsertLifecycleEvent | scripts/dream-route-graduate.ts:285-325 | Appends one event under a fresh id |
| RunSchema.Schema.InsertFlag | scripts/dream-route-apply-signals.ts:144-173 | Claims a flag exactly when its (run, candidate, kind) was free, and writes it only then |
| RunSchema.Schema.HandleReversal | scripts/dream-route-apply-signals.ts:239-284 | The new tables and counters are the signal step's; a missing target is refused. Whom that step lets relegate: `OnlyDecidedRelegate`, `DecidedReversalRelegates` |
| RunSchema.Schema.HandleSignal | scripts/dream-route-apply-signals.ts:301-331 | One signal row's effect on tables, blocked set and counters |
| RunSchema.Schema.HandleRouteSignals | scripts/dream-route-apply-signals.ts:295-334 | The whole signal pass is the fold of signal steps, or its first error |
| RunSchema.Schema.ApplyItem | scripts/dream-route-apply.ts:283-316 | One pending item's effect and outcome |
| RunSchema.Schema.CommitPending | scripts/dream-route-apply.ts:369-387 | The commit loop is the fold of item steps; it counts one tier move per thought and promote |
| RunSchema.Schema.ApplyRouting | scripts/dream-route-apply.ts:330-403 | The whole transaction, which leaves the tables untouched on error |
| RunSchema.Schema.GraduateTarget | scripts/dream-route-graduate.ts:408-432 | Writes one promote exactly when the key has none |
| RunSchema.Schema.GraduateRecurring | scripts/dream-route-graduate.ts:388-447 | The whole graduation |
| RunSchema.Schema.UndoGraduate | scripts/dream-route-graduate.ts:481-527 | The whole undo |
| DreamSteps.NewestPromoteFound | scripts/dream-route-graduate.ts:490-497 | The promote an undo copies is filed under the key and no other promote of the key is newer; none is found only when there is none |
| DreamHistory.ReachableKeepsInvariant | scripts/dream-route-apply-signals.ts:144-334 | Every reachable run schema: one tier move per thought and event and back, unique thoughts, promotes and flags, and apply relegates in one-to-one order with applied reversal flags, each of its flag's target; each table only ever extended |
| DreamHistory.RunLawful | scripts/dream-route-graduate.ts:108-123 | Any history from any tables keeps the invariant, extends every table, and never makes a promoted but retired key stand again |
| DreamHistory.ApplyFailsExactly | scripts/dream-route-apply-signals.ts:239-284 | An apply fails exactly when one of its reversal signals has no target, whatever the tables hold |
| DreamHistory.StoredRunsApply | scripts/dream-route-signals-store.ts:65-74 | Under the signal table's own check, that a reversal names its target, no apply fails |
| DreamHistory.ApplySettles | scripts/dream-route-apply.ts:330-403 | After an apply every signal row has its flag and every unblocked commitment its thought or promote |
| DreamHistory.ApplyCountsAre | scripts/dream-route-apply.ts:369-403 | The reported counts are the table growth, and written plus skipped is the number of unblocked commitments |
| DreamHistory.ReplayIsSilent | scripts/dream-route-apply.ts:134-316 | A second apply of a run after any history writes nothing and reports as skipped all that the first wrote or skipped |
| DreamHistory.ApplyWithholdsBlocked | scripts/dream-route-apply-signals.ts:301-316 | Each new thought or promote was asked for by a verdict of the run, field for field, for a candidate not blocked |
| DreamHistory.GraduatesOnlyTargets | scripts/dream-route-graduate.ts:408-432 | Each new event promotes a target whose key had no promote before, and the reported ids credit them in order |
| DreamHistory.GraduateFoldOutcome | scripts/dream-route-graduate.ts:408-447 | Every target ends promoted, graduated plus skipped is all of them, and nothing but events and tier moves is written |
| DreamHistory.EveryGraduateEarnedIt | scripts/dream-route-graduate.ts:177-214 | Each new promote of a graduation is of a decided, graduating row with at least the threshold of distinct sessions, under a key never promoted before |
| DreamHistory.GraduateReplayIsSilent | scripts/dream-route-graduate.ts:259-274 | Graduating again after any history, undos included, writes nothing |
| DreamHistory.UndoRetiresExactly | scripts/dream-route-graduate.ts:481-527 | For all tables and clocks: after an undo the key still stands exactly when it stood before and some relegate of it, of any age, was already there or some promote of it is newer than the undo |
| DreamHistory.UndoIsPermanent | scripts/dream-route-graduate.ts:481-527 | A promoted key that does not stand after an undo never stands again, whatever runs later and whatever the clocks say |
| DreamHistory.UndoWritesOnce | scripts/dream-route-graduate.ts:481-527 | An undo writes one event and one tier move exactly when a promote and no relegate exists, and after that never again |
| DreamOrder.GraduateJoins | scripts/dream-route-graduate.ts:408-432 | A graduation joins, to what was there, exactly the promoted keys of its targets, whatever the tables hold |
| DreamOrder.TasksJoin | scripts/dream-route-apply.ts:369-387 | Any list of applies and graduations joins, to what was there, exactly what its runs want |
| DreamOrder.FootprintFixesSizes | scripts/dream-route-apply.ts:255-269 | Keys and flags alone determine the relegated pairs and every table's size |
| DreamOrder.MovesMatchRows | scripts/dream-route-apply.ts:176-253 | The number of tier moves is the number of thoughts plus events |
| DreamOrder.OrderIndependence | scripts/dream-route-apply.ts:283-316 | Two lists of applies and graduations over the same runs and thresholds end with the same thoughts, promoted keys, flags, relegated pairs and sizes |
| DreamUndoGap.UndoneYetStanding | scripts/dream-route-graduate.ts:498-507 | A reachable three-step history whose last step undoes a graduation that goes on standing, because an older relegate blocks the undo |
| DreamUndoGap.OutdatedUndoStands | scripts/dream-route-graduate.ts:487-527 | A reachable two-step history whose undo writes its relegate and leaves the key standing, because the promote is newer |
| DreamRules.OnlyDecidedRelegate | scripts/dream-route-apply-signals.ts:239-284 | Each new relegate of an apply reverses a rule on behalf of a candidate of the run whose reversing signal names that target and whose decision is at the decided tier, field for field and dated by the apply |
| DreamRules.DecidedReversalRelegates | scripts/dream-route-apply-signals.ts:239-284 | Conversely each such signal whose flag was free leaves exactly one relegate of its target |
| DreamRules.NewFlagsSay | scripts/dream-route-apply-signals.ts:239-331 | Each new flag says the signal it was left for, applied exactly for a decided reversal; each signal of the run has its flag |
| DreamRules.SignalsInOrder | scripts/dream-route-apply-signals.ts:92-136 | Signals are taken up by candidate id, of one candidate the contradiction first |
| DreamRules.BlockedExactly | scripts/dream-route-apply-signals.ts:301-316 | The candidates withheld are exactly those of the run with a contradicting signal |
| DreamRules.NewThoughtsAreAsked | scripts/dream-route-apply.ts:176-316 | Each new thought is that of the first cohort row whose unblocked verdict asks for its key, which no thought had before |
| DreamRules.NewPromotesAreAsked | scripts/dream-route-apply.ts:219-316 | Each new promote is that of the first cohort row whose unblocked verdict asks for the rule, dated by the apply, under a key never promoted before |
| DreamRules.AskedIsThere | scripts/dream-route-apply.ts:330-403 | Whatever an unblocked verdict asks for is there after the apply |
| DreamRules.CountersAreRows | scripts/dream-route-apply.ts:369-403 | Thoughts, promotes and relegates are counted as written, relegates first, with one tier move each |
| DreamRules.ReachableMovesAreFiled | scripts/dream-route-apply.ts:255-269 | In every reachable run schema each tier move is that of a thought or event, with the tiers and the cause of what wrote it |
| DreamRules.TargetsRecur | scripts/dream-route-graduate.ts:177-214 | A row graduates exactly when it is a decided fact or decision and some set of at least the threshold of sessions, not empty, saw it or decided rows that reinforce it |
| DreamRules.RecurringRowsGraduate | scripts/dream-route-graduate.ts:388-447 | A graduation writes promotes of such rows only, under keys never promoted before, and leaves every such row promoted |
| DreamRules.UndoCopies | scripts/dream-route-graduate.ts:481-527 | An undo that writes relegates the key with the content of a promote than which none is newer, on no candidate's behalf |
| LegacyPromoter.PromoterRun.Record | scripts/promote-legacy-shared.ts:345-366 | Counts one answer in the receipt and, in an apply run, moves the cursor and settles the row |
| LegacyPromoter.PromoterRun.HandleRow | scripts/promote-legacy-shared.ts:369-407 | One row: too short, at the cap, failed, or recorded. Which of these, by its length and the answer: `RunIsLogged` |
| LegacyPromoter.PromoterRun.HandleTable | scripts/promote-legacy-shared.ts:410-421 | One batch of one table |
| LegacyPromoter.PromoterRun.RunLegacyPromoter | scripts/promote-legacy-shared.ts:423-472 | One whole run |
| LegacyPromoter.RunBalances | scripts/promote-legacy-shared.ts:345-420 | Promoted never exceeds the cap; scanned is promoted, would-promote, duplicates, skipped and failed plus one if stopped by the cap; a dry run leaves the cursors alone |
| LegacyPromoter.CursorHidesOnlyEarlier | scripts/promote-legacy-shared.ts:311-331 | Cutting a cursor to the millisecond never hides a row behind it |
| LegacyPromoter.RemainingSplits | scripts/promote-legacy-shared.ts:311-331 | A query returns exactly the rows its cursor admits, in order |
| LegacyPromoter.AppliedRowSettles | scripts/promote-legacy-shared.ts:369-407 | In an apply run a row either stops the run and changes nothing, or is settled and becomes the cursor |
| LegacyPromoter.NoRunLosesARow | scripts/promote-legacy-shared.ts:311-420 | Over any series of runs, dry or not, stopped by cap, failure or batch end, no unsettled row is hidden by a cursor |
| LegacyPromoter.RescannedExactly | scripts/promote-legacy-shared.ts:311-366 | A row at or before the cursor's own row is read again exactly when it lies in the same millisecond and either strictly inside it or under a greater id |
| PromoterRows.RunIsLogged | scripts/promote-legacy-shared.ts:345-472 | Every run has a log of the rows it took up: a row shorter than the minimum is passed over, any other meets the cap or is sent and its fate is the service's answer, only the last can stop the run; the receipt counts the fates, and the settled rows and cursors follow them |
| PromoterRows.RunTakesUpFirstRows | scripts/promote-legacy-shared.ts:311-472 | Where no table is listed twice, the rows taken up are, table by table and up to the stop, the first the saved cursor admits, at most a batch of each |
| PromoterRows.SettledWasAnswered | scripts/promote-legacy-shared.ts:369-407 | A newly settled row is shorter than the minimum or was sent and answered; a dry run settles none |
| PromoterRows.UnansweredIsNeverSettled | scripts/promote-legacy-shared.ts:369-407 | A row of at least the minimum length that the service never answers is never settled |
| PromoterBatches.RemainingParts | scripts/promote-legacy-shared.ts:311-331 | What a cursor admits: the rows at the start of its millisecond under greater ids, then those strictly inside it, then the later ones |
| PromoterBatches.BatchEndsAtStart | scripts/promote-legacy-shared.ts:311-331 | A full batch that fits into the start of the millisecond ends there and leaves the landing row ahead unchanged |
| PromoterBatches.BatchEndsInside | scripts/promote-legacy-shared.ts:311-331 | A full batch that leaves the start but not the millisecond ends on the landing row |
| PromoterBatches.BatchEndsLater | scripts/promote-legacy-shared.ts:311-331 | Any other full batch ends in a later millisecond |
| PromoterBatches.FewRowsNeverTrap | scripts/promote-legacy-shared.ts:311-331 | Fewer rows than a batch in every millisecond leave no trap |
| PromoterBatches.CrowdTraps | scripts/promote-legacy-shared.ts:311-331 | A batch's worth of rows strictly inside one millisecond with a row behind them is a trap, whatever stands at its start |
| PromoterBatches.UnmixedTrapsExactly | scripts/promote-legacy-shared.ts:311-331 | Where no millisecond has rows both at its start and inside it, such a crowd is the only kind of trap |
| PromoterBatches.LoneRowTrapsExactly | scripts/promote-legacy-shared.ts:311-331 | A single row inside a millisecond is a trap of its own exactly when the rows at the start under greater ids are one short of full batches |
| PromoterProgress.BatchTouches | scripts/promote-legacy-shared.ts:345-421 | Whatever the answers, a batch settles only its own rows, and leaves the cursor on one of them or where it was |
| PromoterProgress.SettledBatchPasses | scripts/promote-legacy-shared.ts:369-421 | A batch of settled rows passes whole and promotes nothing |
| PromoterProgress.WalkStep | scripts/promote-legacy-shared.ts:311-421 | Where there is no trap, each full batch of settled rows brings the cursor nearer to any unsettled row |
| PromoterProgress.EnoughRunsFinish | scripts/promote-legacy-shared.ts:423-472 | Without traps, from any saved state that has lost nothing, as many runs as rows outstanding times the longest walk settle every listed row |
| PromoterJams.ReachedLosesNothing | scripts/promote-legacy-shared.ts:311-472 | Every state that earlier runs leave behind, with any arguments and answers, has lost nothing |
| PromoterJams.HeldBatch | scripts/promote-legacy-shared.ts:311-421 | A batch from a cursor that leads into a trap ends where the next one does too, with no row behind the trap's last one in it |
| PromoterJams.TrapJams | scripts/promote-legacy-shared.ts:311-472 | For every trapped table some earlier runs over the same rows leave a state from which no number of runs settles everything, the other listed tables being settled |
| PromoterJams.UntrappedFinishes | scripts/promote-legacy-shared.ts:311-472 | Without traps every state that has lost nothing finishes |
| PromoterJams.FinitelyManyRunsSettleAll | scripts/promote-legacy-shared.ts:311-472 | From every state that earlier runs over the same rows can leave behind, finitely many runs settle every listed row, if and only if no listed table holds a trap |
| PromoterJams.FewRowsPerMillisecondFinish | scripts/promote-legacy-shared.ts:311-472 | Microsecond times with fewer rows than a batch in every millisecond of the listed tables finish |
| PromoterJams.CrowdJamsEveryRun | scripts/promote-legacy-shared.ts:311-472 | While a batch's worth of rows stays inside one millisecond, no run ever settles a row behind it, whatever the answers, failures, caps, dry runs, other tables and new rows |
| PromoterJams.LivelockBelowTheMillisecond | scripts/promote-legacy-shared.ts:311-472 | With a batch of one, one row inside a millisecond keeps every later row waiting, from the first run on |
| PaidGuard.Guard.Reserve | scripts/dream-route-proof-budget.ts:53-67 | Succeeds exactly when not stopped and under the cap, and has then written the next ordinal; failing latches |
| PaidGuard.Guard.LatchCall | scripts/dream-route-proof-budget.ts:38-51 | Stops the guard and writes the failing call's line |
| PaidGuard.Guard.Begin | scripts/dream-route-proof-budget.ts:177-182 | Reserve, then send |
| PaidGuard.Guard.OnTransportFailure | scripts/dream-route-proof-budget.ts:180-188 | A failed send latches |
| PaidGuard.Guard.OnResponse | scripts/dream-route-proof-budget.ts:103-112 | A response that is not ok latches |
| PaidGuard.Guard.OnBody | scripts/dream-route-proof-budget.ts:113-147 | A body completes the call or latches it. Which bodies complete: `StopsExactly`, `LinesAreEarned` |
| PaidGuard.Guard.Complete | scripts/dream-route-proof-budget.ts:135-146 | Books the tokens and writes the completed line of a valid call |
| PaidGuard.CreatePaidAttemptGuard | scripts/dream-route-proof-budget.ts:149-172 | Opens exactly for caps 1 to 100, an absolute path and a file that can be newly created, with a fresh ledger |
| PaidGuard.EveryScheduleKeepsInv | scripts/dream-route-proof-budget.ts:38-147 | Under every interleaving: attempts within the cap, every send and terminal line behind its reserved line, nothing sent after a latch, ordinals 1..attempts reserved once and settled at most once, tokens the sum over completed lines |
| PaidGuard.FreshKeepsInv | scripts/dream-route-proof-budget.ts:149-172 | A new ledger satisfies all of that |
| PaidGuard.CostIsBounded | scripts/dream-route-proof-budget.ts:103-147 | Sends equal attempts, tokens stay within 64000 per attempt, and actual cost never passes reserved cost |
| PaidGuard.StoppedIsFrozen | scripts/dream-route-proof-budget.ts:38-67 | Once stopped, attempts, reservations and sends never change again, while calls in flight may still settle |
| PaidRules.StopsExactly | scripts/dream-route-proof-budget.ts:38-147 | The guard stops exactly on a failed send, a response that is not ok, a body that is not an honest one of the paid model, or a call at the cap, and latches the call under the status of its cause |
| PaidRules.RunsOn | scripts/dream-route-proof-budget.ts:38-147 | What each event does while the guard runs on; the only body it takes is of the paid model with whole usage in range, whose tokens it books |
| PaidRules.HonestIsBooked | scripts/dream-route-proof-budget.ts:135-146 | Such a body is booked for its call even when another call has stopped the guard meanwhile |
| PaidRules.OthersKeepTheirPhase | scripts/dream-route-proof-budget.ts:177-190 | An event of one call never changes where another call stands |
| PaidRules.BadEndStopsForGood | scripts/dream-route-proof-budget.ts:38-147 | Wherever in a schedule a call ends badly, its line stands in the ledger, the guard stays stopped and no attempt is added |
| PaidRules.LinesAreEarned | scripts/dream-route-proof-budget.ts:38-147 | In every schedule each completed line comes from such a body with just those counts, each latched line from such a bad end of that call, each reserved line from a call |
| BackfillPool.DrainTable | scripts/backfill.ts:71-131 | Under every scheduling of the workers each row is claimed once, in order, no row is updated twice, and processed plus failed is the number of rows |
| BackfillPool.Backfill | scripts/backfill.ts:66-139 | Over all tables processed plus failed is the total |
| Curate.Table.NearestNeighbour | scripts/curate.ts:111-120 | Finds a nearest other live row, none exactly when the row is alone |
| Curate.Table.FindDuplicates | scripts/curate.ts:94-159 | Dry or not, the removals are those of one pass: each entry in turn is passed over if archived or kept before or if nothing still live is near it, else archived in favour of a nearest live row; the count is theirs; each entry is archived once, within the threshold, for a keeper that is live at the end; any two live rows still within the threshold are keepers; a dry run changes nothing; with symmetric distance an older keeper had already kept |
| Curate.OlderWasKeeper | scripts/curate.ts:108-152 | Why an entry gives way to an older one only if that one was already a keeper |
| TraceDiff.StagesOf | scripts/langfuse-trace-evidence.ts:402-411 | Each stage holds its observations in (start, end, id) order |
| TraceDiff.PairStageOccurrences | scripts/langfuse-trace-lib.ts:165-182 | Occurrences are paired by position up to the longer side, with evidence and gaps reported exactly |
| TraceDiff.PairAllStages | scripts/langfuse-trace-lib.ts:184-202 | Every stage of either trace is paired, and nothing else |
| TraceDiff.DiffTraces | scripts/langfuse-trace-lib.ts:204-236 | The answer computed over the paired stages is the verdict defined on the two traces |
| TraceDiff.EquivalentExactly | scripts/langfuse-trace-lib.ts:82-132 | Equivalent exactly for complete traces of one tool with evidence and the same form stage by stage |
| TraceDiff.VerdictIsSymmetric | scripts/langfuse-trace-lib.ts:204-236 | All three answers are symmetric |
| TraceDiff.EquivalenceIsTransitive | scripts/langfuse-trace-lib.ts:82-132 | Equivalence is transitive across the different comparison bases |
| TraceDiff.ReflexiveExactly | scripts/langfuse-trace-lib.ts:204-214 | A trace is equivalent to itself exactly when it has evidence and none of it is incomplete |
| TraceDiff.ObservationOrderIgnored | scripts/langfuse-trace-evidence.ts:203-212 | With distinct (start, end, id) keys the order of observations never changes the verdict |
| TraceDiff.CompareRepeats | scripts/langfuse-trace-lib.ts:244-247 | Exit code 0 exactly when every other trace is equivalent to the baseline, which a single trace meets with no comparison |
| TraceDiff.OneBaselineIsEnough | scripts/langfuse-trace-lib.ts:244-247 | Exit code 0 from the first trace means every pair is equivalent and any baseline would exit 0 |
| TraceRules.StagesInOrder | scripts/langfuse-trace-evidence.ts:203-212 | Of two observations of a stage the one that started earlier, or then ended earlier, or then has the smaller id, is compared at an earlier occurrence; missing times come last |
| TraceRules.VerdictExactly | scripts/langfuse-trace-lib.ts:82-236 | Unknown exactly without evidence on either side or with a gap in either; else yes exactly for one tool and as many occurrences of every stage, pairwise with equal rows, and equal counts and degradation where there are no rows |
| TraceRules.ExitCodes | scripts/langfuse-trace-lib.ts:244-247 | Exit 2 exactly when some comparison is unknown, else 1 exactly when some differs, else 0 |
| Migrations.NormalizeAppliedMigrationHistory | scripts/backup-lib.ts:427-450 | Normalises exactly the histories without a conflicting or unknown legacy name, to the sorted duplicate-free normal set |
| Migrations.PrefixIsGapFree | scripts/backup-lib.ts:466-475 | Position-by-position agreement of the sorted lists is gap-freeness of the sets |
| Migrations.CompareMigrationSets | scripts/backup-lib.ts:460-477 | Unknown, interleaved, equal and restorable, each decided exactly by the sets |
| Migrations.PendingSortsAfter | scripts/backup-lib.ts:460-477 | In an accepted history every pending migration sorts after every applied one |
| Migrations.InputOrderIgnored | scripts/backup-lib.ts:460-477 | Unknown, interleaved, equal and restorable do not depend on the order of either list |
| Migrations.AcceptanceComposes | scripts/backup-lib.ts:427-477 | Acceptance composes through an intermediate repository |
| Migrations.LegacyRowsExactly | scripts/backup-lib.ts:419-450 | The two legacy names count for nothing and need their canonical names on both sides |
| Migrations.ContractsMirror | scripts/backup-lib.ts:495-510 | Swapping two contract versions swaps older and newer only |
| Migrations.ContractsAreOrdered | scripts/backup-lib.ts:486-510 | Equal-or-older is transitive, and equal only through equals; its direction: `VersionsCompare` |
| ContractRules.DecimalValue | scripts/backup-lib.ts:486-493 | The digits of a revision are read back as that number |
| ContractRules.SpelledParses | scripts/backup-lib.ts:486-493 | A printed date, family and revision are read back as they are, leading zeros aside |
| ContractRules.ParsedIsSpelled | scripts/backup-lib.ts:486-493 | And no other text is a version |
| ContractRules.DatesInOrder | scripts/backup-lib.ts:505-507 | Printed dates compare as year, month and day do |
| ContractRules.VersionsCompare | scripts/backup-lib.ts:495-510 | Of one family, older exactly when date and revision are lexicographically below, newer exactly when above, equal exactly when the same |
| ContractRules.OthersDoNotCompare | scripts/backup-lib.ts:495-510 | Different texts of two families, or of which one is no version, are unparseable |
| ContractRules.NewerIsNeverTrusted | scripts/backup-verify-lib.ts:255-286 | A set under a newer version is never trusted; an older one exactly when it would be under the runtime's own version, and is doubted |
| ContractRules.OtherFamilyIsNeverTrusted | scripts/backup-verify-lib.ts:255-286 | Nor is a set whose version does not compare with the runtime's |
| BackupVerify.Verification.ReadManifest | scripts/backup-verify-lib.ts:79-117 | Fails exactly on a missing, unreadable or invalid manifest |
| BackupVerify.Verification.CheckFileInventory | scripts/backup-verify-lib.ts:120-149 | Fails exactly on an unreadable directory, an unlisted non-dot entry or an unlisted dump |
| BackupVerify.Verification.CheckOneFile | scripts/backup-verify-lib.ts:159-206 | Fails exactly on a listed file that is not intact, warns exactly on drift |
| BackupVerify.Verification.CheckMigrations | scripts/backup-verify-lib.ts:208-253 | Fails exactly on an inconsistent head or a history that is not accepted |
| BackupVerify.Verification.CheckContract | scripts/backup-verify-lib.ts:255-286 | Passes equal, warns older, fails the rest, as `VersionsCompare` tells them apart |
| BackupVerify.Verification.CheckEmbedding | scripts/backup-verify-lib.ts:288-314 | Fails a mismatch unless allowed, then warns |
| BackupVerify.Verification.CheckCreatedAt | scripts/backup-verify-lib.ts:316-339 | Fails exactly an unparsable or future time |
| BackupVerify.HeadIsLast | scripts/backup-verify-lib.ts:233-243 | The last name of the sorted history is the head exactly when the head is its greatest name |
| BackupVerify.VerifyBackupSet | scripts/backup-verify-lib.ts:347-391 | Non-failed exactly when every condition of trust holds, warned exactly when also doubtful |
| BackupVerify.EvaluateStaleness | scripts/backup-verify-lib.ts:404-417 | Stale exactly when a window is given and no non-negative age is within it; the newest age is the least |
| BackupVerify.VerifyBackupPath | scripts/backup-verify-lib.ts:448-486 | Stale exactly when a window is given and no trustworthy set is within it; otherwise failed and passed exactly, and the newest age is that of a trustworthy set |
| BackupVerify.AgesDecide | scripts/backup-verify-lib.ts:474-476 | The ages kept are those of the trustworthy sets, and none is negative |
| Cohort.ShareBounds | scripts/dream-route-selection.ts:229-235 | A non-empty stratum gives between one and all of its rows, its fraction rounded up |
| Cohort.DrawIsEnough | scripts/dream-route-cohort.ts:144-166 | The draw is at least as long as the fraction of all rows; that no row counts twice: `DrawIsRepeatFree` |
| Cohort.DrawIsTight | scripts/dream-route-cohort.ts:144-166 | And fewer than one row more per non-empty stratum; none when every stratum is empty |
| Cohort.BestByCandidate | scripts/dream-route-selection.ts:248-260 | The best map holds the best member of every candidate |
| Cohort.BestIsStrongest | scripts/dream-route-selection.ts:248-260 | The best member is one of the candidate's own and none is stronger |
| Cohort.MergeByPrecedence | scripts/dream-route-selection.ts:248-267 | One entry per candidate, strictly ordered by source and id |
| Cohort.MergeIgnoresOrder | scripts/dream-route-selection.ts:248-267 | The merge depends on the set of members only, not on their order or repeats |
| Cohort.PulledAreNew | scripts/dream-route-cohort.ts:231-238 | Every neighbour names a searched drawn row it is near, is not itself drawn, and is pulled in by one row only |
| Cohort.NearRowsTaken | scripts/dream-route-cohort.ts:168-190 | Each row near a searched row is drawn or pulled in, unless that row pulled in its full number |
| Cohort.CollectMembers | scripts/dream-route-cohort.ts:218-244 | Collects exactly the draw, its neighbours and the labelled rows, in that order |
| Cohort.MergedIsClosed | scripts/dream-route-cohort.ts:309-323 | The numbered merge is closed: each neighbour names a drawn or labelled row of the same cohort |
| Cohort.FreezeDreamRouteCohort | scripts/dream-route-cohort.ts:293-323 | Succeeds exactly when every member can be read; the cohort is closed, is the merge of the members, and has exactly their candidates. Which rows are drawn, and that they are enough: `DrawnExactly`, `FrozenIsEnough` |
| Cohort.FrozenSources | scripts/dream-route-cohort.ts:309-323 | Drawn and labelled rows are all there and none is filed as a neighbour; labelled is exactly the labelled rows |
| CohortRules.DrawnExactly | scripts/dream-route-cohort.ts:144-166 | A row is drawn exactly when it stands in some stratum at a position below that stratum's fraction |
| CohortRules.DrawnInOrder | scripts/dream-route-cohort.ts:224-229 | The draw lists each stratum from its first row on, one stratum after another |
| CohortRules.DrawIsRepeatFree | scripts/dream-route-cohort.ts:144-166 | Strata without repeats, in one or between two, give a draw without repeats |
| CohortRules.FrozenIsEnough | scripts/dream-route-cohort.ts:293-323 | Of such strata the frozen cohort holds at least the fraction of all rows as drawn or labelled rows |
| CohortRules.SourcesAre | scripts/dream-route-selection.ts:248-267 | A frozen row is labelled exactly when it has a label, and filed under the draw exactly when drawn and not labelled |
| CohortRules.FirstOfStrongestStands | scripts/dream-route-selection.ts:248-260 | Of a candidate's members the strongest stands, and of equally strong ones the first |
| CohortRules.FrozenInOrder | scripts/dream-route-selection.ts:261-267 | Labelled rows come first, then drawn, then neighbours, each by id, numbered from one |
| CohortRules.AnchorsInOrder | scripts/dream-route-cohort.ts:128-142 | Searched rows are taken in draw order |
| CohortRules.NearestComeFirst | scripts/dream-route-cohort.ts:168-190 | A search takes the nearest rows that are not excluded, to its full number |
| AwsScanner.HasAwsSecretWindow | scripts/ob-backfill-sanitize.ts:82-95 | Finds exactly a 40-character window with upper case, lower case, digit and symbol |
| AwsScanner.Scan | scripts/ob-backfill-sanitize.ts:143-172 | The single pass equals the meaning over maximal stretches, for any two disjoint character classes |
| AwsScanner.ContainsWrappedAwsSecret | scripts/ob-backfill-sanitize.ts:143-172 | The same for the source's own classes |
| AwsScanner.PartsDecide | scripts/ob-backfill-sanitize.ts:143-172 | A text hides a secret exactly when the part before, a stretch of its own or the part after does |
| AwsScanner.WrappingIgnored | scripts/ob-backfill-sanitize.ts:143-172 | Where and how often separators wrap a token never matters, given at least one |
| AwsScanner.UnwrappedNeverFound | scripts/ob-backfill-sanitize.ts:143-172 | A token with no separator in it is never reported here |
| AwsScanner.CompactParts | scripts/ob-backfill-sanitize.ts:147-148 | Compacting goes part by part |
| AwsScanner.CompactKeeps | scripts/ob-backfill-sanitize.ts:147-148 | It drops the separators and keeps everything else |
| AwsScanner.PunctuationExactly | scripts/ob-backfill-sanitize.ts:17-17 | The punctuation of the separator class, character by character |
| PairSheet.StrayByLine | scripts/dream-route-restates-pairs.ts:104-106 | A text lets a header through exactly when one of its newline-separated lines does |
| PairSheet.QuoteClean | scripts/dream-route-restates-pairs.ts:99-106 | Quoted text opens no header exactly when it has none behind a carriage return, U+2028 or U+2029 |
| PairSheet.SectionsConcat | scripts/dream-route-restates-pairs.ts:170-170 | Splitting at headers works line by line |
| PairSheet.BodyReadsBack | scripts/dream-route-restates-pairs.ts:150-182 | A printed section reads back to its pair and label, whatever its number, contents and what follows |
| PairSheet.HeadClean | scripts/dream-route-restates-pairs.ts:137-147 | The head of a sheet opens a section exactly when its guidance or its source label does |
| PairSheet.GuidanceClean | scripts/dream-route-restates-pairs.ts:143-145 | The script's own guidance opens none |
| PairSheet.RoundTripExactly | scripts/dream-route-restates-pairs.ts:99-182 | With any yes/no/? edits, reading a sheet gives its pairs and labels in order, if and only if nothing put into it carries such a header |
| PairSheet.FreshSheetExactly | scripts/dream-route-restates-pairs.ts:137-182 | The same for a fresh sheet, every pair undecided |
| PairSheet.NewlinesNeverStray | scripts/dream-route-restates-pairs.ts:104-106 | Text without carriage return, U+2028 and U+2029 never carries such a header |
| PairSheet.CarriageReturnBreaksTheSheet | scripts/dream-route-restates-pairs.ts:104-106 | One carriage return before a header in an item's content loses the sheet, whatever surrounds it |
| SheetRules.PairIsShown | scripts/dream-route-restates-pairs.ts:99-129 | A printed pair shows its number, both ids, and under each of four captions the lines of its own text, or that nothing was recorded |
| SheetRules.PairIsInSheet | scripts/dream-route-restates-pairs.ts:137-156 | Each pair is in the sheet, unlabelled, under its number |
| SheetRules.SheetStarts | scripts/dream-route-restates-pairs.ts:137-147 | The head names the source and the number of pairs |
| SheetRules.SheetReadExactly | scripts/dream-route-restates-pairs.ts:158-182 | A sheet is read exactly when each section has an item, a member and a label line and the label is yes, no or ?, and then as what those first lines say |

## Left out

Assumptions that several models share:

- PostgreSQL: a transaction is one atomic step, a rollback is no change, rows written in one transaction share its
  timestamp, and rows of equal time are ordered by insertion.
- Hashes, uuids and embeddings: hashes are opaque strings, generated ids are unused numbers, embeddings are an abstract
  distance, and times are integers.
- `localeCompare` on candidate ids and observation ids is taken as code-unit order, which agrees on lower-case uuids.
  Distinct observation ids that a locale takes for equal fall back to arrival order in the script, and
  `ObservationOrderIgnored` does not cover them. Stage names are sorted by code unit in the script too.
- Everything under `server/`, the LLM, HTTP, Langfuse and git plumbing, argument parsing and report rendering.
- `scripts/deploy-lock.ts`, the proof scripts V1 to V5 and `assert-db-tests-ran.ts`.

What single members leave out:

- DreamOrder.OrderIndependence: requires the signal table's primary key, (run, candidate, signal).
- RunSchema.Schema.GraduateRecurring: does not model the routing parameter note, and reads a missing decisions table as empty where the script raises.
- LegacyPromoter.PromoterRun.RunLegacyPromoter: the promotion service is an answer per row (promoted, duplicate, skipped, would promote only in dry runs, or failure); per-table receipts, the state file, delays and the summary are not modelled.
- LegacyPromoter.NoRunLosesARow: rows may appear between runs only where the cursor still admits them, as rows with increasing times do.
- PromoterJams.FinitelyManyRunsSettleAll: about repeated apply runs over one unchanging snapshot, with a batch and a cap of at least one and a service that never fails and does not take a settled row for new. The earlier runs may use any arguments: the witness run's batch and cap are as large as the position it must reach, which the script's limits of 250 and 100 may not allow at once. A trap need not catch a first run that starts from nothing; `CrowdJamsEveryRun` is the case that always does.
- PaidGuard.Guard.OnBody: tokens are integers, appending to the ledger always succeeds, and closing the ledger is not modelled.
- BackfillPool.DrainTable: the embedding call answers or fails per row and does not throw outside its own handler.
- Curate.Table.FindDuplicates: the neighbour query is exact and nothing else writes to the table meanwhile.
- TraceDiff.StagesOf: evidence fields are given values; the JSON walkers that collect them from an observation are not modelled.
- TraceDiff.DiffTraces: scores, durations and filtered metadata, which the verdict ignores, are not modelled.
- Migrations.ContractsAreOrdered: revision numbers are exact integers; precision lost above 2^53 is not modelled.
- BackupVerify.VerifyBackupSet: manifest parsing and hashing are given as read results, and an exception while hashing a file is not modelled.
- Cohort.DrawIsTight: the fraction is an exact real; floating-point rounding of fraction times count is not modelled.
- Cohort.CollectMembers: the rows of each stratum in draw order, and the rows near each row in distance order, are given answers of the database.
- AwsScanner.ContainsWrappedAwsSecret: the boundaryless scan, the whitespace reform and the pattern list of the same file are not modelled.
- PairSheet.RoundTripExactly: ids are single trimmed lines; `agreement` and scoring are not modelled.
