# Axtro verification model

A Dafny model of the deterministic kernel of Axtro, with proofs about whole runs of it.

- **Costs.** `FixedPoint` (decimal text, rounding), `CostLedger` (the idempotent tenant-partitioned ledger with
  injected faults and snapshot rollback) and `CostAggregation` (buckets, reconciliation, console totals).
- **Interaction events.** `InteractionReducer` (the event-sourced session), `JsonText` and `CanonicalJson` (canonical
  text), `EventCodec` (the envelope codec), `EventReplay` (stored logs through codec and reducer), `UuidV7`
  (identifiers).
- **Context.** `ContextEntries` and `ContextComposer` (collecting, packing under a byte budget, repair, strict reader),
  with a worked `ContextExample`.
- **Realtime lab.** `ControlFence` (generation fencing under every interleaving), `EditDistance` (word error rate).
- **Presenter.** `Handoff` (proposals split at their awaits), `BehaviorDirector` (gesture cooldown and caps).
- **Evidence.** `ReceiptEvidence` (which milestones stored records confirm), `ReceiptOrder` (when their order matters).
- **Scripts.** `JsonSchema`, `TypeGenerator`, `GeneratorRuns` and `GeneratorLimits` (schema to TypeScript), with a
  worked `GeneratorExample`, `SqlSplit` and `SqlPacking` (migration splitting), `TaskGraph` (dependency cycles).
- **Shared.** `Wrappers` (optional values), `Encoding` (UTF-8 and hexadecimal), `TextOrder` (string length and order).

Code that updates state in place is a class or a method with loops, proved equal to a step function or a
specification; the properties are lemmas about those functions, over every run, input or interleaving. Objects are
compared with a step function so that one set of proofs covers the object and all of its interleavings.

Where a promise is false of the code, the code is modelled as it is, a lemma names an input that breaks the promise,
and another states the condition under which it holds:

- The deletion in the handoff expiry step is filed under a key without the tenant and never fires. Two accepts that
  overlap at the floor call can overwrite an acceptance; a finishing call is legal exactly when nothing changed the
  proposal in between.
- The gesture caps per minute hold for given call times exactly when the times hold no burst, which takes a clock that
  goes back; a run with such a clock goes over the cap.
- Canonical JSON loses members named `__proto__`; texts are equal exactly up to those members and member order.
- The event codec encodes payloads longer than its decoder accepts; the round trip holds exactly up to 250,000
  characters.
- The composition reader refuses times after the year 9999, which the composer can still write; both agree exactly
  within that year, and a clock beyond the last date yields no composition.
- The type generator is too narrow for a node that has `properties` and no `type`, and for instances that do not meet a
  branch condition the generator drops; an instance of a branching document is of some variant's type exactly when it
  meets its clause's condition or has the refined types anyway. Its recursion ends exactly when no node leads back to
  itself. Discriminators with object values are not told apart, because TypeScript's object types are open.
- The latest consents depend on the order of the records exactly when two different ones tie. Without conflicting
  identifiers the whole evidence depends on it exactly when ties lie only below later consents and nothing else reports
  a conflict, or when the consent types in force follow from the choice between consents that tie on top.
- Packing keeps a migration of up to 60,000 bytes in one part although the budget is 50,000.

## Model

| member | source | states |
|---|---|---|
| `EditDistance.WordErrorRate` | experiments/realtime-lab/realtime_lab.py:275-285 | The loop that keeps two rows returns a distance that is the least cost of any script of insertions, deletions and substitutions from the reference tokens to the hypothesis tokens, with the reference length and the exact ratio; an empty reference is refused |
| `EditDistance.NextRow` | experiments/realtime-lab/realtime_lab.py:279-283 | One pass of the outer loop turns a correct table row into the next correct row |
| `EditDistance.DistanceIsLeastCost` | experiments/realtime-lab/realtime_lab.py:278-283 | The recurrence is both a lower bound on every script and attained by one |
| `EditDistance.EntryIsLowerBound` | experiments/realtime-lab/realtime_lab.py:280-282 | No script between two prefixes costs less than their table entry |
| `EditDistance.EntryIsAttained` | experiments/realtime-lab/realtime_lab.py:280-282 | Some script between two prefixes costs exactly their table entry |
| `EditDistance.DistanceSymmetric` | experiments/realtime-lab/realtime_lab.py:278-285 | Swapping reference and hypothesis keeps the distance |
| `EditDistance.DistanceTriangle` | experiments/realtime-lab/realtime_lab.py:278-285 | Going through a third token list is never shorter |
| `EditDistance.DistanceZeroIffEqual` | experiments/realtime-lab/realtime_lab.py:278-285 | The distance is zero exactly for equal token lists |
| `EditDistance.DistanceBounds` | experiments/realtime-lab/realtime_lab.py:278-285 | The distance lies between the length difference and the longer length |
| `ControlFence.StepKeepsInv` | experiments/realtime-lab/realtime_lab.py:128-157 | Every atomic step of every operation keeps the queue within its limit, every queued frame of the current scope, and every scope fresh |
| `ControlFence.ReachableInv` | experiments/realtime-lab/realtime_lab.py:112-239 | These hold after any number of steps, in any interleaving |
| `ControlFence.PermissionEndsIffRevoked` | experiments/realtime-lab/realtime_lab.py:39-64 | A permitted scope stops being permitted exactly at the steps listed as revoking: a newer generation, its own cancel, a bad marker, an overflow or a close |
| `ControlFence.LateCancelIsHarmless` | experiments/realtime-lab/realtime_lab.py:180-187 | Cancelling an old scope revokes nothing of a newer one and leaves its queue alone |
| `ControlFence.FenceIsFinal` | experiments/realtime-lab/realtime_lab.py:49-64 | Once a scope is not permitted it never is again, and no later step accepts or hands out one of its frames |
| `ControlFence.RevocationSilences` | experiments/realtime-lab/realtime_lab.py:54-64 | At most one scope is permitted, and whatever revokes it silences it for the rest of the run |
| `ControlFence.DeliveredInOrder` | experiments/realtime-lab/realtime_lab.py:128-157 | What was taken followed by what is queued is a subsequence of what was accepted: order kept, each accepted frame handed out at most once |
| `ControlFence.QueueStep` | experiments/realtime-lab/realtime_lab.py:128-157 | A step appends what it accepts or drops a stretch of the queue whose last frame may be the one handed out |
| `ControlFence.GenerationAuthority.BeginGeneration` | experiments/realtime-lab/realtime_lab.py:39-47 | Refuses closed, out-of-range and non-increasing generations without a change; otherwise mints the one permitted scope |
| `ControlFence.GenerationAuthority.Cancel` | experiments/realtime-lab/realtime_lab.py:54-59 | Revokes exactly the permitted scope and reports whether it did |
| `ControlFence.GenerationAuthority.Close` | experiments/realtime-lab/realtime_lab.py:61-64 | Afterwards nothing is permitted |
| `ControlFence.ControlHarness.EmitFrame` | experiments/realtime-lab/realtime_lab.py:128-145 | The object's step is the emit step of the state machine, with the same acceptance |
| `ControlFence.ControlHarness.TakeFrame` | experiments/realtime-lab/realtime_lab.py:147-153 | The loop that skips stale frames is the take step of the state machine |
| `ControlFence.ControlHarness.FenceAndClear` | experiments/realtime-lab/realtime_lab.py:180-187 | Fencing precedes the first await of a cancel |
| `ControlFence.ControlHarness.StartRun` | experiments/realtime-lab/realtime_lab.py:201-211 | A run starts only on a permitted scope with no run in flight, on an emptied queue |
| `ControlFence.ControlHarness.CloseAndFence` | experiments/realtime-lab/realtime_lab.py:231-235 | Closing fences and empties the queue before the first await |
| `InteractionReducer.ReplayInteraction` | packages/domain/src/reducer.ts:111-116 | Replaying by one loop gives the run's final state, or the first rejection |
| `InteractionReducer.OnlyConsentWithdrawalBlocks` | packages/domain/src/reducer.ts:71-73 | The only accepted step from an acceptable state to one the state check rejects records a consent other than not-required or granted while active |
| `InteractionReducer.ReachableIsCoherent` | packages/domain/src/reducer.ts:401-531 | In every reachable state a presenter holds the floor exactly when the session is active, the handoff-pending status never occurs, and an active session has its disclosure and start time |
| `InteractionReducer.TurnsHappenOnAnOpenFloor` | packages/domain/src/reducer.ts:224-298 | Every turn event of an accepted run happened while active, with disclosure made, consent allowed, one presenter, and a presenter's turn spoken by the floor owner |
| `InteractionReducer.ReachableStateBlocksIffConsentWithdrawn` | packages/domain/src/reducer.ts:497-499 | A reachable state accepts nothing more exactly when the last event withdrew consent from an active session |
| `InteractionReducer.WithdrawnConsentEndsTheRun` | packages/domain/src/reducer.ts:50-64 | After such a withdrawal no longer log is accepted |
| `InteractionReducer.TerminalIsAbsorbing` | packages/domain/src/reducer.ts:683-699 | A terminal status never changes, and only sales events are accepted afterwards |
| `InteractionReducer.IdentityIsFixed` | packages/domain/src/reducer.ts:670-680 | Session, tenant and agent never change within a run |
| `InteractionReducer.StateContentIsTheLogView` | packages/domain/src/reducer.ts:65-108 | The recorded content of every reachable state is what a reader of the log who checks nothing would record |
| `InteractionReducer.CountersMatchTheLog` | packages/domain/src/reducer.ts:369-399 | The state version counts the events, and the turn index counts committed turns plus twice the succeeded outcomes |
| `InteractionReducer.TurnIndexNeverFalls` | packages/domain/src/reducer.ts:224-285 | The turn index never goes back within a run |
| `InteractionReducer.SucceededGenerationIsFinal` | packages/domain/src/reducer.ts:261-285 | After a generation's success every later outcome belongs to a later generation |
| `FixedPoint.LexIsSpelling` | packages/costing/src/index.ts:637-642 | Exactly the texts of the decimal pattern are accepted, and each is read as the decimal it spells, exponent included |
| `FixedPoint.PlaceIsExact` | packages/costing/src/index.ts:643-656 | Moving the decimal point by the exponent neither loses nor invents a digit |
| `FixedPoint.ScaleDecimalIsExact` | packages/costing/src/index.ts:657-666 | Exactly which decimals are accepted at a scale, and an accepted one is its value times 10^scale without rounding |
| `FixedPoint.ParseIsExact` | packages/costing/src/index.ts:636-666 | From text: what spells a decimal is read as exactly that decimal times 10^scale or refused |
| `FixedPoint.ParseInvertsFormat` | packages/costing/src/index.ts:728-732 | Reading a formatted value gives the value back, for every value that fits the column |
| `FixedPoint.AmountIsNearest` | packages/costing/src/index.ts:614-619 | An amount is the one integer within half of 10^-8 USD of quantity times unit cost, ties going up |
| `FixedPoint.TotalRoundingError` | packages/costing/src/index.ts:614-619 | Rounding n events separately is off by at most n half units in total |
| `FixedPoint.ConsoleReadsTheLedger` | apps/web/src/operations-console-read-model.ts:590-599 | The console recovers the ledger's integer from the ledger's text exactly when it has at most twelve whole digits |
| `FixedPoint.ConsoleFormatRoundTrip` | apps/web/src/operations-console-read-model.ts:590-606 | What the console prints it reads back, and it prints every value of at most twelve whole digits |
| `CostLedger.StepKeepsConsistent` | packages/costing/src/index.ts:263-294 | No call, faults included, breaks the correspondence of events and index or the reconciliation links |
| `CostLedger.ReachableIsConsistent` | packages/costing/src/index.ts:263-294 | Every ledger of every run is consistent: every reconciling event points to a stored estimate with equal session, provider, service and unit |
| `CostLedger.IndexIsABijection` | packages/costing/src/index.ts:280-289 | Per tenant, the keys of source and provider request correspond one to one to the stored events |
| `CostLedger.FailureChangesNothing` | packages/database/src/transaction.ts:31-59 | A failed call leaves both maps exactly as before; only the fault that fired is spent |
| `CostLedger.ThirdAttemptIsFaultFree` | packages/costing/src/index.ts:339-341 | With at most two faults armed, the third attempt of one call does what a fault-free ledger would have done |
| `CostLedger.RepeatingAFinishedCall` | packages/costing/src/index.ts:264-270 | An equal event recorded again changes nothing, spends no fault and gives the same answer |
| `CostLedger.RecordsAreImmutable` | packages/costing/src/index.ts:263-294 | A stored event never changes and never disappears |
| `CostLedger.OtherTenantsAreUntouched` | packages/costing/src/index.ts:272-290 | A call authorized for one tenant never changes another tenant's events or index |
| `CostLedger.RecordedEventIsStored` | packages/costing/src/index.ts:286-292 | A successful answer is the stored event, then and at every later point |
| `CostLedger.ReplayChangesNothing` | packages/costing/src/index.ts:264-277 | A call that once succeeded can be made again at any later point without any effect |
| `CostLedger.StoredAmountsAreNearest` | packages/costing/src/index.ts:614-619 | Every stored amount is nearest to its quantity times its unit cost and fits the money column |
| `CostLedger.ProviderRequestRecordedOnce` | packages/costing/src/index.ts:280-283 | Two successful calls naming one tenant, source and provider request are the same event |
| `CostLedger.LedgerStore.Check` | packages/costing/src/index.ts:280-285 | The checks find the refusal the ledger step names: a claimed request, an unusable target, lossy numbers |
| `CostLedger.LedgerStore.Work` | packages/costing/src/index.ts:272-292 | The work inserts before it can fail; its success is the ledger step, its failure may leave the tables changed |
| `CostLedger.Put` | packages/costing/src/index.ts:286-289 | An entry goes into one tenant's table in place and leaves every other table alone |
| `CostLedger.Copy` | packages/costing/src/index.ts:327-337 | Every table is copied: the copies hold the same and share nothing |
| `CostLedger.LedgerStore.CaptureSnapshot` | packages/costing/src/index.ts:327-332 | A snapshot shares no table with the ledger |
| `CostLedger.LedgerStore.RestoreSnapshot` | packages/costing/src/index.ts:334-337 | Restoring brings back what the snapshot held, in tables of its own |
| `CostLedger.LedgerStore.ExecuteSync` | packages/database/src/transaction.ts:31-59 | Capturing copies before and restoring them on failure makes the whole transaction the ledger step, although the work changes tables in place |
| `CostLedger.LedgerStore.Record` | packages/costing/src/index.ts:263-294 | The object's call is the ledger step on both maps and the armed faults |
| `CostAggregation.ListEntries` | packages/costing/src/index.ts:312-316 | The listed entries are exactly the tenant's events that pass the filter, once each |
| `CostAggregation.EstimateSurvivesFilter` | packages/costing/src/index.ts:464-477 | An entry that passes a filter takes the estimate it reconciles along |
| `CostAggregation.NoLinkIsDropped` | packages/costing/src/index.ts:538-539 | On any reachable tenant and filter, dropping links without a listed estimate drops nothing |
| `CostAggregation.AggregateBuckets` | packages/costing/src/index.ts:479-514 | One bucket per combination of source, provider, service and unit, with that combination's count, quantity and amount |
| `CostAggregation.BucketsIgnoreOrder` | packages/costing/src/index.ts:479-514 | The same entries in another order give the same buckets |
| `CostAggregation.BucketsConserveTotals` | packages/costing/src/index.ts:479-514 | Per source and overall, the buckets add up to the entries' own counts, quantities and amounts |
| `CostAggregation.TotalIgnoresOrder` | packages/costing/src/index.ts:479-514 | Totals do not depend on the order of the entries |
| `CostAggregation.AggregateReconciliations` | packages/costing/src/index.ts:516-556 | One row per reconciled estimate, each variance the linked amounts minus the estimate |
| `CostAggregation.LinkIgnoresOrder` | packages/costing/src/index.ts:516-556 | What is linked to an estimate does not depend on the order of the entries |
| `CostAggregation.Aggregate` | packages/costing/src/index.ts:312-325 | On any valid ledger and filter the reconciled estimates are exactly those some listed event reconciles, and the buckets conserve the listed totals |
| `CostAggregation.ReadCostTotals` | apps/web/src/operations-console-read-model.ts:398-427 | The console's totals per source, accumulated from and written as decimal text, equal the buckets' sums, and are refused exactly for too many rows, a quantity or amount outside the pattern, or a total over twelve whole digits |
| `CostAggregation.SumBuckets` | apps/web/src/operations-console-read-model.ts:417-422 | The accumulation over the buckets' text |
| `CostAggregation.ReadCosts` | apps/web/src/operations-console-read-model.ts:385-427 | From the ledger to the console: what is shown per source is the total of the ledger's listed events of that source |
| `Handoff.SessionKeyIsInjective` | packages/handoff/src/index.ts:114 | Distinct tenant and session pairs have distinct keys |
| `Handoff.ExpiryNeverClearsTheIndex` | packages/handoff/src/index.ts:103-109 | The deletion in the expiry step never removes an index entry, because its key lacks the tenant |
| `Handoff.ReachableInv` | packages/handoff/src/index.ts:111-210 | In every interleaving split at the awaits, a pending proposal is named by the index and every call in flight matches the proposal it captured |
| `Handoff.OnePendingPerSession` | packages/handoff/src/index.ts:112-149 | At most one proposal per tenant and session is pending, and the pending index names it |
| `Handoff.FinishIsLegalIff` | packages/handoff/src/index.ts:160-169 | A finishing call makes a legal status move exactly when nothing else changed the proposal since it was captured, or what it writes is already there |
| `Handoff.OverlappingAcceptsCanLoseAnAcceptance` | packages/handoff/src/index.ts:160-169 | A concrete interleaving of two accepts in which a recorded acceptance is overwritten by a refusal after the floor moved |
| `Handoff.SerialReachable` | packages/handoff/src/index.ts:151-199 | Serialized runs keep the status and floor bookkeeping at every step |
| `Handoff.SerializedStatusesMoveForward` | packages/handoff/src/index.ts:151-199 | In serialized runs statuses only move from pending to accepted, declined or timed out, and from accepted to rolled back |
| `Handoff.SerializedFloorMoves` | packages/handoff/src/index.ts:160-198 | Each accepted handoff moved the floor once, each rolled-back one once more, and no other handoff moved it |
| `Handoff.RollbackRestoresPresenter` | packages/handoff/src/index.ts:184-199 | A successful serialized rollback hands the floor back to the presenter who had it at acceptance |
| `Handoff.HandoffCoordinator.RequestHandoffProposal` | packages/handoff/src/index.ts:112-149 | The object's request is the request step on proposals, index and counter |
| `Handoff.HandoffCoordinator.BeginAccept` | packages/handoff/src/index.ts:151-165 | An accept reaches the floor only for a pending, unexpired proposal and its own target |
| `Handoff.HandoffCoordinator.FinishCall` | packages/handoff/src/index.ts:166-169 | What an accept or rollback does when the floor has answered |
| `Handoff.HandoffCoordinator.DeclineHandoff` | packages/handoff/src/index.ts:172-182 | The object's refusal is the decline step |
| `Handoff.HandoffCoordinator.Expire` | packages/handoff/src/index.ts:103-109 | Marks an overdue pending proposal as timed out and nothing else |
| `Handoff.HandoffCoordinator.Clear` | packages/handoff/src/index.ts:207-210 | Removes an index entry only when it names this proposal |
| `BehaviorDirector.SameGestureWaitsForCooldown` | packages/behavior-director/src/index.ts:134-154 | Over any calls and any clock, two uses of one gesture are at least 8,000 ms apart by their own times |
| `BehaviorDirector.CapHoldsIffNoBurst` | packages/behavior-director/src/index.ts:129-154 | For given call times, every run at them keeps a capped gesture within its cap in every closed minute exactly when the times hold no burst: one call more than the cap, a cooldown apart and within a minute, with a call in between that comes more than a minute after the first |
| `BehaviorDirector.OverCapIsBurst` | packages/behavior-director/src/index.ts:129-154 | Whatever is asked for and drawn and whatever the clock does, a minute over the cap comes from such a burst |
| `BehaviorDirector.BurstGoesOver` | packages/behavior-director/src/index.ts:129-154 | A run at bursting times goes over the cap |
| `BehaviorDirector.MinuteCapsHold` | packages/behavior-director/src/index.ts:129-154 | With times that never go back, every closed minute holds at most six nods and four smiles although older uses are pruned |
| `BehaviorDirector.ClockGoingBackBreaksTheCap` | packages/behavior-director/src/index.ts:129-132 | A concrete run with one late, empty call in between nods seven times within a minute |
| `BehaviorDirector.SelectionIsAllowed` | packages/behavior-director/src/index.ts:134-154 | Every selected gesture was asked for, is allowed by the provider, quiet where the state demands it, won its draw, occurs once, and there are no more than the state permits |
| `BehaviorDirector.SpeakingRateIsBoundedAndMonotone` | packages/behavior-director/src/index.ts:164-169 | The rate stays in the provider's range, and more energy or a quicker pacing never slows it |
| `BehaviorDirector.Director.PruneWindow` | packages/behavior-director/src/index.ts:129-131 | The loop removes exactly the leading uses older than a minute |
| `BehaviorDirector.Director.SelectMicrogestures` | packages/behavior-director/src/index.ts:134-154 | The object's selection and what it remembers are the selection step |
| `BehaviorDirector.Director.PickInOrder` | packages/behavior-director/src/index.ts:140-152 | Stopping at the state's maximum gives what considering every candidate would give |
| `BehaviorDirector.Director.Produce` | packages/behavior-director/src/index.ts:172-189 | A directive carries the selection, style, rate, pause, gaze and duration of its intent; a provider without a voice style fails after the gestures were remembered |
| `BehaviorDirector.Director.Interrupted` | packages/behavior-director/src/index.ts:190-204 | An interruption selects no gesture and changes nothing that is remembered |
| `TaskGraph.CheckTaskGraph` | scripts/docs_qa.py:52-78 | Reports a cycle exactly when the dependencies between known tasks have one, repeated dependencies and task ids included; the tasks taken from the queue are known and distinct, and one is missing exactly when there is a cycle |
| `TaskGraph.BuildTables` | scripts/docs_qa.py:53-67 | The two tables hold, for every task, how many dependency occurrences enter it and the targets of those that leave it |
| `TaskGraph.Release` | scripts/docs_qa.py:73-76 | Counting down a finished task's dependents keeps every count the number of unfinished dependency occurrences, and queues exactly the tasks that stop waiting |
| `TaskGraph.AllRankedMeansAcyclic` | scripts/docs_qa.py:77-78 | When every task was dequeued there is no cycle |
| `TaskGraph.StuckMeansCyclic` | scripts/docs_qa.py:77-78 | When some tasks were not, each waits for another of them, and that gives a cycle |
| `SqlSplit.SplitStatements` | scripts/prepare_production_window.py:30-69 | The scanner loop returns the spans, or the position of the dollar-quote it gives up on |
| `SqlSplit.ScanToken` | scripts/prepare_production_window.py:33-66 | One turn of the loop, branch by branch |
| `SqlSplit.ScanQuoted` | scripts/prepare_production_window.py:41-50 | The inner loop stops at the closing quote and steps over doubled ones |
| `SqlSplit.StepIsThePiece` | scripts/prepare_production_window.py:34-66 | The scanner's step covers exactly the comment, quoted text, dollar-quoted text or plain character that starts there, by definitions that do not mention the scanner |
| `SqlSplit.SpansEndAtTopLevelSemicolons` | scripts/prepare_production_window.py:33-66 | A span ends exactly after each semicolon outside quotes, comments and dollar-quotes; the splitter fails exactly on an unclosed dollar-quote outside them |
| `SqlSplit.SpansCoverTheText` | scripts/prepare_production_window.py:59-69 | The spans are contiguous from the beginning, and joined they are the text up to a blank tail |
| `SqlSplit.StatementsAreStable` | scripts/prepare_production_window.py:30-69 | Every span but a final unterminated one ends at a top-level semicolon, each such semicolon ends a span, and splitting such a span again returns it whole |
| `SqlPacking.Pack` | scripts/prepare_production_window.py:281-296 | Order and content are kept; up to 60,000 bytes stay in one part; above that a part exceeds the budget only for one oversized statement, and no such division has fewer parts |
| `SqlPacking.GreedyStaysAhead` | scripts/prepare_production_window.py:287-296 | No other division within the budget is ever ahead of the greedy one |
| `SqlPacking.PartsKeepOrder` | scripts/prepare_production_window.py:286-296 | Cutting a list at any cut points and joining the parts gives the list back |
| `TypeGenerator.ContractIsSound` | scripts/generate_contract_types.py:319-367 | Every instance valid for a contract's schema is of the type declared for the contract, through any depth of declared names, under every judgement of validity that obeys the keywords |
| `TypeGenerator.NodeIsSound` | scripts/generate_contract_types.py:205-255 | The same for every schema node the generator visits |
| `TypeGenerator.ReferenceFits` | scripts/generate_contract_types.py:213-221 | A followed reference leads to a schema the instance meets, a named one to a contract it is valid for |
| `TypeGenerator.RetypedIsMet` | scripts/generate_contract_types.py:229-231 | A list of types is met through one of its alternatives |
| `TypeGenerator.MergeIsMet` | scripts/generate_contract_types.py:66-76 | What meets a property's schema and its branch refinement meets the two merged |
| `TypeGenerator.SomeClauseApplies` | scripts/generate_contract_types.py:110-129 | An instance of a branching document carries the value of one of its clauses |
| `TypeGenerator.VariantIsMet` | scripts/generate_contract_types.py:131-139 | The instance meets the schema its variant is rendered from |
| `TypeGenerator.ExactlyOneVariant` | scripts/generate_contract_types.py:79-139 | An instance of a discriminated contract is of exactly one of the emitted variants, when no variant's discriminator literal allows another's value |
| `TypeGenerator.ScalarsAreToldApart` | scripts/generate_contract_types.py:118-129 | Scalar discriminator values, which the generator checks to be distinct, are told apart by their literals |
| `TypeGenerator.PlainClauseApplies` | scripts/generate_contract_types.py:93-108 | A condition that only compares the discriminator holds of every instance that carries its value |
| `TypeGenerator.VariantPinsItsValue` | scripts/generate_contract_types.py:137-138 | Whatever is of a variant's type carries a discriminator its literal allows; for a scalar, the variant's own value |
| `GeneratorRuns.ExpandVariants` | scripts/generate_contract_types.py:79-139 | The loops return the variants, or nothing when the document is not provably exhaustive |
| `GeneratorRuns.EmissionEnds` | scripts/generate_contract_types.py:205-255 | The recursion from a node ends exactly when no node it visits leads back to itself |
| `GeneratorRuns.LoopNeverEnds` | scripts/generate_contract_types.py:213-219 | A node that leads back to itself is never finished, at any depth |
| `GeneratorRuns.SelfReferenceNeverEnds` | scripts/generate_contract_types.py:213-219 | A reference to its own node is such a loop |
| `GeneratorRuns.CommonLimit` | scripts/generate_contract_types.py:319-367 | One limit serves every contract exactly when no contract's emission loops |
| `GeneratorRuns.DeclarationsExist` | scripts/generate_contract_types.py:319-367 | Contracts without loops, of the supported fragment and with distinct type names have their declarations, all within one limit |
| `GeneratorRuns.GeneratedFileIsSound` | scripts/generate_contract_types.py:319-367 | Soundness of the generated file from conditions on the contracts alone |
| `GeneratorRuns.AdmissibleIsSupported` | scripts/generate_contract_types.py:205-255 | A node whose emission ends and visits only nodes of the fragment is supported |
| `GeneratorRuns.LinkedIsGenerable` | scripts/generate_contract_types.py:178-202 | A contract with a chain of references into its definitions meets all of these conditions |
| `GeneratorExample.BothAreGenerable` | scripts/generate_contract_types.py:319-367 | A contract with two branches and a reference to the type of another one that chains references: together they meet all of these conditions |
| `GeneratorRuns.DepthIsIrrelevant` | scripts/generate_contract_types.py:205-255 | The emitted type does not depend on how deep the recursion was allowed to go |
| `GeneratorRuns.NextPlaces` | scripts/generate_contract_types.py:205-255 | A call goes on only to what a reference leads to, to a part of its node, or to its node with one of its types |
| `GeneratorLimits.UntypedPropertiesAreTooNarrow` | scripts/generate_contract_types.py:242-252 | Every node that describes members without saying it is an object accepts null while the emitted type does not, so the type keyword is needed |
| `GeneratorLimits.VariantTypeMembers` | scripts/generate_contract_types.py:131-139 | A value is of a variant's type exactly when its members are of the types of the refined schemas, or may be missing and are |
| `GeneratorLimits.SomeVariantIffRefined` | scripts/generate_contract_types.py:79-139 | A valid instance of any branching document, whatever its conditions say, is of some variant's type exactly when its members are of the types its own clause refines them to |
| `GeneratorLimits.BranchIsSoundIff` | scripts/generate_contract_types.py:79-139 | A valid instance of any branching document is of some variant's type exactly when it meets its clause's condition or has the refined types although the clause does not apply |
| `GeneratorLimits.GuardedConditionIsTooNarrow` | scripts/generate_contract_types.py:93-108 | A condition that requires one further property is applied without it: a valid instance is then of no variant's type |
| `ContextComposer.BuildCandidates` | packages/context-composer/src/index.ts:713-821 | The four collecting loops give the summary, facts, knowledge and suggestions that are in scope, current and permitted, in that order |
| `ContextComposer.CandidatesAreValid` | packages/context-composer/src/index.ts:713-862 | Every collected candidate satisfies the reader's entry checks and lifetime checks, and there are at most 329 |
| `ContextComposer.UniqueSortedCandidates` | packages/context-composer/src/index.ts:864-875 | The result is ordered, holds one candidate per kind, source kind and source, and none of another identity is missing |
| `ContextComposer.SortedIsInOrder` | packages/context-composer/src/index.ts:877-885 | Sorting orders the candidates and keeps each of them |
| `ContextComposer.ComposeBounded` | packages/context-composer/src/index.ts:887-914 | The packing and repair loops compute the composition |
| `ContextComposer.GreedyPacks` | packages/context-composer/src/index.ts:892-905 | Every candidate is selected or counted, and what is selected fitted when the last of it was taken |
| `ContextComposer.RepairDropsAtMostOne` | packages/context-composer/src/index.ts:906-913 | The repair gives up at most one entry and ends within the budget |
| `ContextComposer.NothingFits` | packages/context-composer/src/index.ts:906-913 | A composition without entries fits every permitted budget, so the budget error is unreachable |
| `ContextComposer.EntryCosts` | packages/context-composer/src/index.ts:961-963 | An entry adds nearly a hundred bytes or more to the serialized composition, expiry and counters included |
| `ContextComposer.CompositionFits` | packages/context-composer/src/index.ts:887-914 | A composition is returned unless the clock is beyond the last date; it is within its budget, its entries an ordered part of the candidates, selected and omitted adding up |
| `ContextComposer.ReaderAccepts` | packages/context-composer/src/index.ts:398-448 | A composition of valid candidates is accepted exactly when its own time and its first expiry lie within the year 9999 |
| `ContextComposer.CompositionIsAccepted` | packages/context-composer/src/index.ts:386-448 | Producer and reader agree over whole compositions, with the budget, the subsequence, the count and the exact condition on the two written times |
| `ContextComposer.InTimeIsAccepted` | packages/context-composer/src/index.ts:386-448 | When no source expires after the year 9999, a composition is produced and accepted exactly when the clock stands within that year |
| `ContextComposer.WholeListIsAccepted` | packages/context-composer/src/index.ts:386-448 | When the de-duplicated candidates fit the budget together all of them are selected, and the composition is accepted exactly when the clock lies within the year 9999 and none of them expires or one does by then |
| `ContextComposer.LateExpiryIsRefused` | packages/context-composer/src/index.ts:602-611 | A single source that expires later is composed at an ordinary time and then refused |
| `ContextExample.LateExpiryHappens` | packages/context-composer/src/index.ts:602-611 | A whole input for which this happens, under a calendar that obeys the stated laws |
| `ContextExample.CalendarIsFaithful` | packages/context-composer/src/index.ts:1018-1041 | The laws asked of reading and writing times can be met |
| `ContextComposer.LateClockIsRefused` | packages/context-composer/src/index.ts:916-940 | Past the year 9999 a composition is produced and then refused, and past the last date none is produced |
| `ContextComposer.ParseContextComposition` | packages/context-composer/src/index.ts:398-448 | The reader returns what it was given or nothing |
| `ContextComposer.CheckOrder` | packages/context-composer/src/index.ts:571-580 | The ordering loop accepts exactly ordered entries without repeated identities |
| `ContextComposer.CheckEntries` | packages/context-composer/src/index.ts:613-624 | The entry loop accepts exactly entries that are valid and alive |
| `ContextEntries.EntryIsLarge` | packages/context-composer/src/index.ts:961-963 | Any entry takes a hundred bytes and more, and at least its content's |
| `ContextEntries.PrecedesIsTransitive` | packages/context-composer/src/index.ts:582-593 | The entry order is transitive |
| `UuidV7.Assemble` | packages/domain/src/ids.ts:52-73 | The byte loop assembles the identifier of its time and entropy, and refuses a time beyond 48 bits or another amount of entropy |
| `UuidV7.AlwaysVersionSeven` | packages/domain/src/ids.ts:64-72 | Whatever the entropy, the text has the version and variant bits of section 5.7 of RFC 9562 |
| `UuidV7.TimestampIsRecovered` | packages/domain/src/ids.ts:79-82 | The time is read back for every 48-bit time and any entropy |
| `UuidV7.TextsSortByTime` | packages/domain/src/ids.ts:52-82 | A smaller time gives a text that sorts first |
| `UuidV7.EqualTexts` | packages/domain/src/ids.ts:64-72 | Two identifiers are equal exactly when time and entropy agree outside the six fixed bits |
| `UuidV7.BitwiseForms` | packages/domain/src/ids.ts:64-66 | The arithmetic used for the version and variant bytes is the bitwise one |
| `JsonText.ParseInvertsWrite` | packages/domain/src/canonical.ts:15-19 | Reading compact JSON inverts writing it |
| `JsonText.ValueIsRead` | packages/domain/src/canonical.ts:15-19 | The same inside any larger text |
| `JsonText.StringIsRead` | packages/domain/src/canonical.ts:15-19 | Escaped strings are read back, control characters included |
| `CanonicalJson.EqualTexts` | packages/domain/src/canonical.ts:15-19 | Two values have one canonical text exactly when they agree up to the order of members, members named `__proto__` aside |
| `CanonicalJson.EqualTextsOfVisibleValues` | packages/domain/src/canonical.ts:15-19 | Without such members: one text exactly for values equal up to the order of members |
| `CanonicalJson.ProtoIsLost` | packages/domain/src/canonical.ts:48-52 | A record with a member of that name is written like the record without it |
| `CanonicalJson.CanonicalIsUnique` | packages/domain/src/canonical.ts:48-52 | The canonical form is determined by the meaning of the value |
| `CanonicalJson.AssigningBuildsCanon` | packages/domain/src/canonical.ts:48-52 | Assigning the sorted keys one by one, array indices moving to the front, builds the canonical record |
| `CanonicalJson.Canonicalize` | packages/domain/src/canonical.ts:32-53 | The recursive loop returns the canonical form |
| `EventCodec.DecodeInvertsEncode` | packages/events/src/codec.ts:16-65 | Decoding an encoded event gives the normalized event exactly when its payload text has at most 250,000 characters, and is refused otherwise |
| `EventCodec.EncodingsAreEqual` | packages/events/src/codec.ts:16-37 | Payloads equal up to the order of members are encoded alike, and payloads with different normal forms differently |
| `EventCodec.LogSurvives` | packages/events/src/codec.ts:39-65 | A stored log decodes to the validated events, in order, exactly when every payload is short enough |
| `EventReplay.StoringKeepsTheReplay` | packages/domain/src/reducer.ts:111-116 | Replaying an encoded log through the reducer gives what replaying the log itself gives, exactly when every payload is short enough; otherwise nothing is replayed |
| `EventReplay.MemberOrderIsIrrelevant` | packages/domain/src/canonical.ts:48-52 | Logs whose payloads differ in the order of members only are stored alike and replay to one state |
| `EventReplay.StoredLogIsCounted` | packages/domain/src/reducer.ts:369-399 | A state replayed from a stored log has counted its envelopes |
| `EventCodec.NormalizeByMeaning` | packages/domain/src/events.ts:246-298 | Validating and rebuilding a payload depends on it only up to the order of members |
| `EventCodec.NormalIsStable` | packages/domain/src/events.ts:246-298 | A rebuilt payload is valid and rebuilds to itself |
| `EventCodec.PayloadSurvives` | packages/events/src/codec.ts:39-65 | A rebuilt payload survives canonical text and parsing |
| `ReceiptEvidence.ProjectEvidence` | packages/evaluation/src/receipt-evidence.ts:36-165 | The stages together compute the projection, or refuse input out of bounds or malformed |
| `ReceiptEvidence.CheckBounds` | packages/evaluation/src/receipt-evidence.ts:42-54 | The running budget accepts exactly lists of at most 128 records of 250,000 characters each and 2,000,000 in all |
| `ReceiptEvidence.Unique` | packages/evaluation/src/receipt-evidence.ts:61-69 | Keeps the first record of each identifier and notes a conflict exactly when two records with one identifier differ |
| `ReceiptEvidence.JudgeReceipts` | packages/evaluation/src/receipt-evidence.ts:82-121 | Judges every receipt and notes two effects claimed for one intent |
| `ReceiptEvidence.CollectDisclosures` | packages/evaluation/src/receipt-evidence.ts:123-135 | The first delivery of each version of the AI disclosure before the deadline |
| `ReceiptEvidence.CollectConsents` | packages/evaluation/src/receipt-evidence.ts:136-151 | The latest consent of each type and purpose |
| `ReceiptEvidence.ConfirmedIsProved` | packages/evaluation/src/receipt-evidence.ts:36-165 | A confirmed milestone implies no violation, a succeeded in-window receipt whose result hashes to its effect and whose tool is its action, and for every intent in scope the chain of AI disclosure, granted essential consent for its purpose, and intent |
| `ReceiptEvidence.NoViolationMeansCovered` | packages/evaluation/src/receipt-evidence.ts:152-163 | Without violations every intent in scope rests on that chain |
| `ReceiptEvidence.PaymentIsNeverConfirmed` | packages/evaluation/src/receipt-evidence.ts:164-208 | No record ever confirms a payment |
| `ReceiptEvidence.CopiesChangeNothing` | packages/evaluation/src/receipt-evidence.ts:61-69 | Appending an exact copy of a stored record leaves the projection unchanged within the bounds |
| `ReceiptEvidence.OrderOfTiesMatters` | packages/evaluation/src/receipt-evidence.ts:145-150 | Three consents of which two tie are judged differently in different orders |
| `ReceiptOrder.ConsentOrderIff` | packages/evaluation/src/receipt-evidence.ts:136-151 | The latest consents and the clash are the same in every order exactly when no two different consents of one type and purpose, in scope, were captured at the same time |
| `ReceiptOrder.OrderDoesNotMatter` | packages/evaluation/src/receipt-evidence.ts:36-165 | Permuting any of the lists leaves the whole projection unchanged when no two different records share an identifier and no two consents tie |
| `ReceiptOrder.ProjectionOrderIff` | packages/evaluation/src/receipt-evidence.ts:36-165 | Of records without conflicting identifiers, the whole projection is the same in every order exactly when every order reports a conflict or none does (nothing ties, something ties on top, or receipts clash) and the consent types in force do not depend on the choice between consents that tie on top |
| `ReceiptOrder.LowerTiesIff` | packages/evaluation/src/receipt-evidence.ts:136-163 | Where every tie lies below a later consent and no receipts clash, the whole projection is the same in every order exactly when nothing ties |
| `ReceiptOrder.TopTieClashes` | packages/evaluation/src/receipt-evidence.ts:136-151 | Two consents that tie with none later are reported as a conflict in every order |
| `ReceiptOrder.OrderHolding` | packages/evaluation/src/receipt-evidence.ts:136-151 | Any choice of latest consents is the one held in some order, where only ties with them clash |
| `ReceiptOrder.TiesChangeTheProjection` | packages/evaluation/src/receipt-evidence.ts:145-150 | Two consents that tie below a later one change the whole projection with their place in the list |
| `ReceiptOrder.OrderCanMatter` | packages/evaluation/src/receipt-evidence.ts:36-165 | Two whole inputs with the same records and different projections |

## Left out

- Field checks by regular expression and long enumerations: predicates, or absent where nothing branches on them.
- `EditDistance.WordErrorRate`: starts from token lists; normalization, case folding, token pattern and size limits are not modelled, and the ratio is a real number.
- `ControlFence.FenceIsFinal`: a scope's object identity is the number of its minting; adapter callbacks, timeouts and settling of tasks are outside, and any of them may interleave at the awaits.
- `InteractionReducer.StateContentIsTheLogView`: role, quality, sales and turn documents are opaque values; their inner validation is not modelled.
- `CostLedger.LedgerStore.Record`: the fingerprint is equality of the normalized event; scopes, rate-card and provider-request capabilities are inputs already resolved, and the loss of digits in floating-point contract numbers is a flag of the call.
- `CostAggregation.AggregateBuckets`: buckets are compared as sets; the order by locale comparison is not modelled.
- `FixedPoint.ParseIsExact`: starts from text; the text of a floating-point argument is not modelled.
- `Handoff.OnePendingPerSession`: of the tenant identifier's pattern only the fixed length is used; notifications and their failures are not modelled.
- `BehaviorDirector.SelectionIsAllowed`: the hash-derived draw is any value per gesture and call, and times and rates are real numbers.
- `TaskGraph.CheckTaskGraph`: duplicate ids, unknown dependencies, missing fields and non-object tasks are reported elsewhere in the script and not here; the initial queue is in some order, not the sorted one.
- `SqlSplit.SplitStatements`: the integrity blocks, headers and file handling around the splitter are not modelled.
- `TypeGenerator.ContractIsSound`: types are terms, not text, so indentation, quoting and TypeScript's own syntax are not modelled; numbers are mathematical values, so 1 and 1.0 are one literal; type names are capitalized for ASCII only; array positions in pointers, anchors, `prefixItems` and the Python renderer are left out.
- `TypeGenerator.ExactlyOneVariant`: object types are open, as in TypeScript; excess members are not checked.
- `GeneratorLimits.BranchIsSoundIff`: conditions are read as far as they are written with `type`, `const`, `properties` and `required`; one with any other keyword counts as not met.
- `ContextComposer.BuildCandidates`: records come normalized from their factories, and the state from the reducer; capability objects, authorization and state hashing are not modelled.
- `ContextComposer.CompositionIsAccepted`: reading and writing times are parameters with the stated laws; strings have no unpaired surrogates, and confidences are kept by their JSON text.
- `JsonText.ParseInvertsWrite`: numbers are kept by the text JSON writes, so negative zero is zero; whitespace and surrogate escapes are not read.
- `EventCodec.DecodeInvertsEncode`: payload shapes are a parameter with one shape per kind of event, covering exact records, bounded lists, scalar checks and whole-record checks; the seventeen concrete shapes and the header patterns are not listed.
- `ReceiptEvidence.ProjectEvidence`: records are typed, with the fields nothing branches on in one opaque part; field checks, sizes, JSON reading and the hash are parameters, and equal fingerprints mean equal records.
- `ReceiptOrder.ProjectionOrderIff`: two different records with one identifier are outside; which of them is kept depends on the order, and the kept one may be the malformed one.
- `EventReplay.StoringKeepsTheReplay`: sub-documents reach the reducer as their canonical text; channel, capabilities and language of a new session are not part of its state here.
- `CostAggregation.ReadCosts`: the console's checks of identifiers and of safe integers in event counts are not modelled.
- The operations console beyond its cost path, its version cursor and evidence binding: mostly presentation.
- HTTP adapters, telemetry, portals, event relay, workflow worker, migrations, model and voice adapters: input and output only.
- SHA-256 and HMAC are uninterpreted.
