# Verification of the egress registry and spend ledger

A Dafny model of the parts of the repository that decide money and authority: the spend ledger
and the egress permit registry that share one operational database, the per-key dispatch gates
and the renewable request budget they protect, bounded completion paging, classifier answers
and their bounded encoding, and cache pruning. `dafny verify dfyconfig.toml` checks all of it.

How it is organised:

- `Tables`, `Records`: table lookups, counts and rows.
- `SpendLedger`, `RequestBudget`, `Registry`, `Expiry`: each transaction as a function from
  tables to a result; an error is a rollback.
- `LedgerInvariants`, `LedgerSteps`, `RegistryInvariants`, `RegistrySteps`: what every reachable
  store satisfies and that each transaction keeps it.
- `Runs`, `RunTheorems`, `StatusTheorems`, `ReadBack`, `BindingTheorems`, `PurgeTheorems`,
  `BudgetTheorems`: any sequence of transactions at any times. A crash between transactions is the
  end of one run and the start of another from the same tables; a sweep, a reconciliation and a
  restart are events like any other.
- `ReserveTheorems`, `SettleTheorems`, `IssueTheorems`, `AdmissionTheorems`, `StatusReadBack`: exactly
  when each operation succeeds, what it leaves behind and how that is read.
- `SweepTheorems`: the expiry loop among other writers, one committed batch at a time.
- `Database`, `AnswerSweeps`: the database as an object whose tables change step by step inside a
  transaction. Its ghost history makes every object a state that some run reaches.
- `Gates`, `GatedBudget`: tasks, weak references, mutexes and restarts, interleaved with all
  transactions.
- `Deliveries`, `CompletionPages`: page accounting against the encoded JSON text.
- `Classifier`, `ChoiceDecision`, `Wire`, `CachePrune`, `CacheWalk`.

Modelling choices: a digest is the digested value, so it is injective; tokens are inputs; time is
an integer, and every clock read of a transaction is a sample of its own that may lie before an
earlier one; row order is acceptance order; floating point numbers are reals; JSON text of a leaf
value is given, punctuation is written out.

Where the code differs from what is written about it:

- The page preflight counts `result_expired` before it may be flagged, so the total can be one
  byte per lost result too high (`Deliveries.PageExact`). It can also be too low: an answer charged
  as absent is back after the clock went back; or an answer shorter than what replaces it expires
  before it is read, which the ledger allows although no model response is shorter than four bytes.
  The page is then leased although it exceeds its bound, and the poll fails
  (`Deliveries.UnderchargedInputs`, `Deliveries.LeasesOverBound`,
  `CompletionPages.PollLeasesAndFails`; exactly when, in `Deliveries.ChargeCoversWhen`).
- A chat-backed answer does not always choose the largest stated number: numbers above 1 within
  the tolerance are clamped before they are compared (`Classifier.SmallerNumberChosen`, with the
  exact condition in `Classifier.ChosenStatesLargestWhen`).
- A completion recorded at or after its recovery deadline keeps no result; if the clock then goes
  back before that deadline its status cannot be read (`StatusTheorems.StatusUnknownExactlyWhen`,
  with a run that does so in `ReadBack.ClockBackHidesStatus`).
- The trigger clears a binding when the ledger resolves (docs/architecture/model-egress.md:258-263),
  but an admission may bind after that moment, so a bound unfinished permit need not be Unknown:
  `BindingTheorems.LateAdmissionBindsReleased` is a run that ends with a binding of a Released
  charge. Along a run every binding is Unknown if
  and only if no admission bound an attempt already resolved
  (`BindingTheorems.BindingsUnknownExactlyWhen`); then a key has at most one binding
  (`BindingTheorems.OneBindingPerKey`). In every run a key has at most one Unknown binding
  (`RunTheorems.OneUncertainSend`).

## Model

| member | source | states |
|---|---|---|
| `RunTheorems.RetriesFollowReleases` | crates/symbiotic-credential-process/src/registry.rs:199-277 | in every run, whatever the clock does, a consumed permit with a later permit of its invocation is Released and not a success; at most one consumed permit per invocation is unreleased |
| `RunTheorems.LatestPermitCountsConsumed` | crates/symbiotic-credential-process/src/registry.rs:210-262 | in every run the permit with the greatest ordinal carries exactly the number of consumed permits of its invocation |
| `RunTheorems.ConsumeWithinAllowance` | crates/symbiotic-credential-process/src/registry.rs:308-331 | direct acceptance consumes exactly one more permit and never passes max_attempts |
| `RunTheorems.AcceptJobWithinAllowance` | crates/symbiotic-credential-process/src/registry.rs:333-354 | the same for a job acceptance, whether its permit existed or is issued on the spot |
| `RunTheorems.OneReceiptPerDispatch` | crates/symbiotic-credential-process/src/registry.rs:358-414 | every consumed permit has exactly one ledger receipt and no two share one |
| `RunTheorems.ConsumedForGood` | crates/symbiotic-credential-process/src/registry.rs:379-412 | once consumed, an attempt is refused by direct and job acceptance after every later run |
| `RunTheorems.OneUncertainSend` | crates/symbiotic-credential-process/src/registry.rs:434-493 | in every run at most one permit bound to a request key is consumed, unfinished and Unknown in the ledger |
| `BindingTheorems.BindingsUnknownExactlyWhen` | crates/symbiotic-credential-process/src/registry.rs:434-475 | along a run every bound permit is Unknown in the ledger if and only if no successful admission of the run bound an attempt whose receipt was already resolved |
| `BindingTheorems.OneBindingPerKey` | crates/symbiotic-credential-process/src/registry.rs:434-493 | without such an admission a request key has at most one binding at all, of a send in flight and Unknown |
| `BindingTheorems.LateAdmissionBindsReleased` | crates/symbiotic-credential-process/src/registry.rs:460-470 | a run from the empty store that ends with a live binding of a Released charge |
| `BindingTheorems.StepCertainWhen` | crates/symbiotic-credential-process/src/registry.rs:144-151 | from a store whose bindings are all Unknown, a transaction leaves them so if and only if it is not such an admission |
| `BindingTheorems.BindingEndsOnlyWhen` | crates/symbiotic-credential-process/src/registry.rs:144-151 | a binding stands until its dispatch finishes or its charge resolves |
| `BindingTheorems.JobCompletionEndsOwn` | crates/symbiotic-credential-process/src/registry.rs:478-493 | a job's completion ends the bindings of its own reference and no other |
| `RunTheorems.ProviderAnswerRecorded` | crates/symbiotic-model/src/lib.rs:4284-4300 | every provider answer to an Unknown attempt is recorded, in every mode and whatever cost text the provider states; it settles if and only if a token count or a valid cost was reported, and otherwise stays Unknown with its evidence |
| `RunTheorems.AnswerRecordedExactlyWhen` | crates/symbiotic-credential-process/src/registry.rs:537-591 | `finish` on arbitrary usage, including the kind no adapter yields: refused if and only if answers are off and the only measurement is an invalid cost |
| `RunTheorems.PreSendFailureRecordedExactlyWhen` | crates/symbiotic-credential-process/src/registry.rs:559-591 | a failure before sending of an Unknown attempt is recorded and released if and only if its receipt has no output evidence |
| `ReserveTheorems.ReservedExactlyWhen` | crates/symbiotic-ai-runtime/src/spend.rs:181-258 | in every run a reference is accepted if and only if it is fresh, its chain's binding matches with nothing Unknown, the fence is open, the attempts charged are below the frozen ceiling and the receipts held below the request limit; it is reattached if and only if exactly this reservation holds it |
| `ReserveTheorems.FreshAcceptedExactlyWhen` | crates/symbiotic-ai-runtime/src/spend.rs:203-257 | the same with the refusals for a completed invocation, a used up ceiling and a used up limit told apart, and the row and counter an acceptance leaves |
| `ReserveTheorems.ReattachedExactlyWhen` | crates/symbiotic-ai-runtime/src/spend.rs:197-202 | a held reference is reattached if the reservation is the same and is a conflict otherwise |
| `SettleTheorems.SettledExactlyWhen` | crates/symbiotic-ai-runtime/src/spend.rs:349-405 | a settlement is accepted if and only if the named receipt allows it; then that row holds exactly the given state and usage and the joined evidence, every other row is the same, and a release returns one request |
| `SettleTheorems.SettledWithAnswerExactlyWhen` | crates/symbiotic-ai-runtime/src/spend.rs:608-631 | the same when an answer is saved too, which must agree with one already kept |
| `SettleTheorems.ReconciledForGood` | crates/symbiotic-ai-runtime/src/spend.rs:379-403 | after a reconciliation, with or without output, the row holds what it was told after every later run; then a settlement is accepted if and only if it is the same, and changes nothing |
| `SettleTheorems.RepeatedSettlementChangesNothing` | crates/symbiotic-ai-runtime/src/spend.rs:379-387 | the identical settlement repeated is accepted and changes nothing |
| `SettleTheorems.ReleasedExactlyWhen` | crates/symbiotic-ai-runtime/src/spend.rs:139-151 | a release before dispatch is accepted if and only if the receipt is Unknown without output or was so released before; it returns the request, and once the attempt |
| `SettleTheorems.AcquiredExactlyWhen` | crates/symbiotic-ai-runtime/src/spend.rs:560-595 | ownership is taken if and only if the receipt is exactly the handed-off reservation, Unknown, unowned, of this account and with this input; only its owner changes |
| `SettleTheorems.ForeignHandoffRefused` | crates/symbiotic-ai-runtime/src/spend.rs:571-578 | another account or another input is refused whatever the ledger holds |
| `SettleTheorems.DiscardedIsUnreadable` | crates/symbiotic-ai-runtime/src/spend.rs:502-507 | after a discard the newest receipt of the invocation has no readable answer at any time and no other row changes |
| `SettleTheorems.PurgedExactlyWhen` | crates/symbiotic-ai-runtime/src/spend.rs:508-542 | a purge takes exactly the answers it was given and nothing but the answer |
| `SettleTheorems.SweptIsUnreadable` | crates/symbiotic-ai-runtime/src/spend.rs:154-170 | an answer is swept exactly when it can no longer be read, so a sweep is invisible to every reader at or after its cutoff |
| `RunTheorems.AccountsConserved` | crates/symbiotic-ai-runtime/src/spend.rs:239-257 | in every run an account's counter is the number of its receipts that are not Released, and the decrement guard of a settlement never fails |
| `RunTheorems.AccountsWithinLimit` | crates/symbiotic-ai-runtime/src/spend.rs:245-254 | an account whose reservations all carry a limit of at most L never holds more than L |
| `RunTheorems.ChainsEndAtCompletion` | crates/symbiotic-ai-runtime/src/spend.rs:187-223 | receipts of a chain share one binding; only the newest can be Unknown; an explicit receipt before another is Released without output and passes on its ceiling |
| `RunTheorems.AcceptedAfterReleaseOnly` | crates/symbiotic-ai-runtime/src/spend.rs:203-219 | an explicit or handed-off receipt directly follows only a Released receipt without output |
| `RunTheorems.AttemptsWithinCeiling` | crates/symbiotic-ai-runtime/src/spend.rs:224-238 | the newest explicit receipt counts the chain's receipts not released before dispatch, between zero and the ceiling |
| `RunTheorems.ResolvedForGood` | crates/symbiotic-ai-runtime/src/spend.rs:356-404 | a resolved receipt keeps state, usage and evidence in every later run, and every receipt its reservation and ceiling |
| `RunTheorems.AcquiredOnce` | crates/symbiotic-ai-runtime/src/spend.rs:560-595 | dispatch ownership is taken only while Unknown, and after every later run any second taking of the reference is refused |
| `RunTheorems.SavedAnswerOnlyNarrows` | crates/symbiotic-ai-runtime/src/spend.rs:294-345 | a saved answer appears only with the completion evidence, never changes, never returns and is never readable past an earlier deadline |
| `LedgerSteps.ReleaseIsIdempotent` | crates/symbiotic-ai-runtime/src/spend.rs:139-151 | a second release directly after the first changes nothing |
| `RunTheorems.ReleasedOnce` | crates/symbiotic-ai-runtime/src/spend.rs:139-151 | after a release and every later run, releasing the reference again is accepted and changes nothing, so an attempt is returned once |
| `LedgerSteps.ReserveKeeps` | crates/symbiotic-ai-runtime/src/spend.rs:181-258 | a reservation keeps every ledger invariant, appends one Unknown receipt when accepted and changes nothing when it reattaches |
| `LedgerSteps.FinishKeeps` | crates/symbiotic-ai-runtime/src/spend.rs:349-405 | a settlement keeps every ledger invariant and only evolves one receipt |
| `LedgerSteps.ReleaseKeeps` | crates/symbiotic-ai-runtime/src/spend.rs:139-151 | a release before dispatch keeps every ledger invariant, the attempt tally included |
| `LedgerSteps.FinishWithAnswerKeeps` | crates/symbiotic-ai-runtime/src/spend.rs:608-631 | saving the answer and settling together keep every ledger invariant |
| `LedgerSteps.ConstrainKeeps` | crates/symbiotic-ai-runtime/src/spend.rs:72-105 | narrowing a saved answer to its job's deadline keeps every ledger invariant |
| `LedgerSteps.AcquireKeeps` | crates/symbiotic-ai-runtime/src/spend.rs:560-595 | taking ownership keeps every ledger invariant and sets one owner |
| `LedgerSteps.EraseKeeps` | crates/symbiotic-ai-runtime/src/spend.rs:508-542 | erasing saved answers keeps every ledger invariant |
| `LedgerSteps.AnswerReadableUntil` | crates/symbiotic-ai-runtime/src/spend.rs:294-345 | a first answer is readable from now on exactly until the earliest of retention, caller deadline and job deadline, and never when erased |
| `LedgerSteps.ConstrainedReadableUntil` | crates/symbiotic-ai-runtime/src/spend.rs:72-105 | after narrowing, an answer is readable exactly when it was and its job allows it |
| `LedgerSteps.ExpireBatchKeeps` | crates/symbiotic-ai-runtime/src/spend.rs:154-170 | one committed expiry batch keeps every ledger invariant |
| `IssueTheorems.IssuedExactlyWhen` | crates/symbiotic-credential-process/src/registry.rs:199-277 | in every run a permit is issued if and only if the attempt carries the published revision, continues the invocation's last permit, that permit is Invalidated or its charge Released without success, fewer permits are consumed than allowed, and the authority has not expired |
| `IssueTheorems.SucceedsExactlyWhen` | crates/symbiotic-credential-process/src/registry.rs:214-258 | which of these refuses with ReconciliationRequired and which with InvocationComplete |
| `IssueTheorems.PermittedBlocksIssue` | crates/symbiotic-credential-process/src/registry.rs:233-238 | while the last permit is Permitted no successor is issued |
| `IssueTheorems.PermittedEndsOnlyWhen` | crates/symbiotic-credential-process/src/registry.rs:233-238 | with a nondecreasing clock a Permitted status ends only by consumption, a newly published revision or expiry |
| `IssueTheorems.BindingIsImmutablePart` | crates/symbiotic-credential-process/src/lib.rs:1022-1032 | two attempts share a binding if and only if invocation, recovery deadline and content agree |
| `IssueTheorems.PublishedExactlyWhen` | crates/symbiotic-credential-process/src/registry.rs:279-287 | a revision is published if and only if it is not below the published one; it is then the grant's and no other grant changes |
| `AdmissionTheorems.ConsumedExactlyWhen` | crates/symbiotic-credential-process/src/registry.rs:308-331 | in every run an attempt is consumed if and only if its own permit is presented, Permitted and within the allowance, and its handoff's reservation is acceptable |
| `AdmissionTheorems.ConsumeRefusals` | crates/symbiotic-credential-process/src/registry.rs:318-330 | which ledger refusal becomes a refused budget, a reconciliation, a refused permit or an unavailable state |
| `AdmissionTheorems.HandoffReservedExactlyWhen` | crates/symbiotic-ai-runtime/src/spend.rs:261-291 | a held handoff reference is reattached if and only if reservation and input are the same |
| `AdmissionTheorems.JobAcceptedExactlyWhen` | crates/symbiotic-credential-process/src/registry.rs:333-354 | in every run a job is accepted if and only if its reservation is acceptable and its attempt has a Permitted permit within the allowance or can be issued one |
| `AdmissionTheorems.AdmittedExactlyWhen` | crates/symbiotic-credential-process/src/registry.rs:434-475 | in every run a request is admitted if and only if no send of its key is uncertain, its attempt is in flight and unbound, and its budget allows it; the three refusals are told apart |
| `RegistrySteps.IssueKeeps` | crates/symbiotic-credential-process/src/registry.rs:182-277 | issuing keeps the joint invariant of both table sets |
| `RegistrySteps.PublishKeeps` | crates/symbiotic-credential-process/src/registry.rs:279-287 | publishing keeps the joint invariant and revisions never go down |
| `RegistrySteps.ConsumeKeeps` | crates/symbiotic-credential-process/src/registry.rs:308-331 | direct acceptance keeps the joint invariant |
| `RegistrySteps.AcceptJobKeeps` | crates/symbiotic-ai-runtime/src/jobs.rs:646-784 | job acceptance keeps the joint invariant |
| `RegistrySteps.AdmitKeeps` | crates/symbiotic-credential-process/src/registry.rs:434-475 | binding a request keeps the joint invariant, at most one uncertain send per key included |
| `RegistrySteps.CompleteKeeps` | crates/symbiotic-credential-process/src/registry.rs:537-629 | completion keeps the joint invariant |
| `RegistrySteps.LateSuccessRefused` | crates/symbiotic-credential-process/src/registry.rs:575-591 | a success for a receipt already released is refused |
| `RegistrySteps.WithLedgerKeeps` | crates/symbiotic-credential-process/src/registry.rs:144-151 | settling through the trigger keeps the joint invariant |
| `RegistrySteps.PurgeKeeps` | crates/symbiotic-credential-process/src/registry.rs:744-765 | the result purge keeps the joint invariant |
| `Registry.Retire` | crates/symbiotic-credential-process/src/registry.rs:478-493 | exactly the live permits of a reference lose their request key and nothing else changes |
| `Registry.WithLedger` | crates/symbiotic-credential-process/src/registry.rs:144-151 | a ledger commit changes permits only by clearing request keys of unfinished consumed ones |
| `Runs.StepKeeps` | crates/symbiotic-ai-runtime/src/spend.rs:181-405 | every transaction at any time keeps the joint invariant and only appends or evolves rows |
| `Runs.RunKeeps` | crates/symbiotic-credential-process/src/registry.rs:182-765 | the same over every run of transactions |
| `StatusTheorems.StatusOnlyMovesForward` | crates/symbiotic-credential-process/src/registry.rs:653-742 | with a clock that never moves back every status is known and only moves forward: an Invalidated permit is never accepted, a completed answer stays until it expires |
| `StatusTheorems.DeadForGood` | crates/symbiotic-credential-process/src/registry.rs:379-408 | a pending permit that is superseded, stale or expired is never consumed later |
| `StatusTheorems.StatusUnknownExactlyWhen` | crates/symbiotic-credential-process/src/registry.rs:722-742 | under any clock a status is an error if and only if a recoverable completion kept no result and the reader's clock is before its recovery deadline |
| `StatusTheorems.PurgeIsInvisible` | crates/symbiotic-credential-process/src/registry.rs:744-765 | at any time not before one purge every status of the store equals the one without it |
| `PurgeTheorems.PurgesAreInvisible` | crates/symbiotic-credential-process/src/registry.rs:744-765 | two runs that differ only in result purges, whatever their clocks do, show the same status of every attempt at every time not before any of those purges |
| `PurgeTheorems.StepAlike` | crates/symbiotic-credential-process/src/registry.rs:182-629 | no other transaction tells two stores apart that differ only in results past their deadline |
| `StatusTheorems.PurgeIsBounded` | crates/symbiotic-credential-process/src/registry.rs:744-765 | a purge removes min(64, due) results, only due ones and the earliest deadlines first |
| `ReadBack.LateCompletionIsUnreadable` | crates/symbiotic-credential-process/src/registry.rs:559-573 | a completion retained at or after its recovery deadline reads as Expired from the deadline on and is an error before it |
| `ReadBack.ClockBackHidesStatus` | crates/symbiotic-credential-process/src/registry.rs:722-742 | a run from the empty store: publish, issue, consume, complete at time 5, and the status cannot be read at time 4 |
| `ReadBack.PermittedIsAcceptance` | crates/symbiotic-credential-process/src/registry.rs:379-412 | in every run acceptance succeeds if and only if the attempt's status is Permitted and its allowance is not used up |
| `ReadBack.IssuedIsPermitted` | crates/symbiotic-credential-process/src/registry.rs:199-277 | a permit just issued has status Permitted |
| `StatusReadBack.CompletionIsReadBack` | crates/symbiotic-credential-process/src/registry.rs:653-742 | however a dispatch ended, its status says so: Completed or Failed with its own stored status, reference, usage, charge and answer until the recovery deadline, Expired from then on, and with answers off finished without answer |
| `StatusReadBack.InFlightIsDispatched` | crates/symbiotic-credential-process/src/registry.rs:706-713 | an unfinished dispatch reads as Dispatched with the ledger's own row |
| `StatusReadBack.ConsumedIsDispatched` | crates/symbiotic-credential-process/src/registry.rs:308-331 | an attempt just consumed reads as Dispatched for its handoff's reference, Unknown and unmetered |
| `StatusReadBack.NotIssuedExactlyWhen` | crates/symbiotic-credential-process/src/registry.rs:653-694 | an attempt is NotIssued if and only if no permit has its identity |
| `ReadBack.SettledAsTold` | crates/symbiotic-credential-process/src/registry.rs:575-591 | after a recorded answer the ledger row holds its usage, Settled when measured and Unknown otherwise |
| `ReadBack.AnswerIsReadBack` | crates/symbiotic-credential-process/src/registry.rs:722-742 | a retained answer is read back with exactly its usage and charge until its recovery deadline |
| `Expiry.Batch` | crates/symbiotic-ai-runtime/src/spend.rs:154-170 | a batch holds min(limit, due) due rows, none due later than one left out |
| `Expiry.BatchProgresses` | crates/symbiotic-ai-runtime/src/spend.rs:154-170 | a batch is empty if and only if nothing is due |
| `AnswerSweeps.BatchesAddUp` | crates/symbiotic-ai-runtime/src/spend.rs:154-170 | batches until nothing is due equal one filter over all receipts |
| `AnswerSweeps.BatchTurn` | crates/symbiotic-ai-runtime/src/spend.rs:154-170 | a batch takes min(64, due) off the due receipts and touches nothing else |
| `AnswerSweeps.DueIsCount` | crates/symbiotic-ai-runtime/src/spend.rs:154-170 | the due rows are as many as the expired receipts |
| `AnswerSweeps.PurgeIsErase` | crates/symbiotic-ai-runtime/src/spend.rs:508-542 | erasing by collected reference erases exactly the matching answers |
| `SweepTheorems.SweepProgresses` | crates/symbiotic-ai-runtime/src/spend.rs:154-170 | whatever transactions and clocks fall between the batches of a loop, the answers expired at its sample are at most those at the start less 64 per batch, plus one per late writer (one that sets a deadline at a sample before the cutoff, or with zero retention at it) |
| `SweepTheorems.SweepEnds` | crates/symbiotic-ai-runtime/src/spend.rs:154-170 | after enough batches at most as many expired answers are left as there were late writers; without one the next batch is empty, so the loop ends |
| `SweepTheorems.SweptForGood` | crates/symbiotic-ai-runtime/src/spend.rs:154-170 | under any clock, once a batch is empty every answer expired when the loop began is gone and never returns |
| `SweepTheorems.StepAhead` | crates/symbiotic-ai-runtime/src/spend.rs:294-345 | every transaction keeps or erases answers or gives them a deadline past the cutoff, except that a late writer may leave one expired |
| `BudgetTheorems.PreSendFailureIsUndo` | crates/symbiotic-credential-process/src/registry.rs:502-534 | after a debit and its pre-send undo the budget seen at every later time is the one without the debit, a renewed cohort included |
| `BudgetTheorems.UndoIsExactWhen` | crates/symbiotic-credential-process/src/registry.rs:599-616 | at an arbitrary time the undo is exact if and only if the debit had not renewed the cohort or that cohort is renewed at that time too |
| `BudgetTheorems.RefusedDispatchRestoresBudget` | crates/symbiotic-credential-process/src/registry.rs:599-616 | admit then a refused completion, with anything in between that leaves the key's own row alone, restores the budget of the key and leaves every other key's row |
| `BudgetTheorems.UndoneSendLeavesNoTrace` | crates/symbiotic-credential-process/src/registry.rs:599-616 | deleting an admitted send and its undo from a key's history changes neither its kept sends nor its budget at any later time |
| `BudgetTheorems.AdmitDebitsKey` | crates/symbiotic-credential-process/src/registry.rs:497-535 | an admission debits exactly its key and hands back the live state before it |
| `BudgetTheorems.CompleteSettlesKey` | crates/symbiotic-credential-process/src/registry.rs:592-627 | a completion settles exactly the key of its admission, as success, undo or recorded failure |
| `BudgetTheorems.WindowBound` | crates/symbiotic-credential-process/src/registry.rs:497-535 | any window no longer than the renewal interval without a success holds at most `attempts` kept sends, crashes counted and pre-send undos not |
| `BudgetTheorems.RefusedOnlyWhenSpent` | crates/symbiotic-credential-process/src/registry.rs:506-518 | an admission finds the budget exhausted only when at least `attempts` kept sends follow the last success and the newest failure has not renewed |
| `BudgetTheorems.RenewedBudgetAdmits` | crates/symbiotic-credential-process/src/registry.rs:507-518 | with a positive interval a key is admitted again once that many seconds have passed since each of its sends and completions, whatever the clock did; with a zero interval always |
| `BudgetTheorems.RenewalStartsAtCompletion` | crates/symbiotic-credential-process/src/registry.rs:617-626 | a recorded failure starts the interval at its completion: a budget used up then admits again exactly from that many seconds later on |
| `BudgetTheorems.NeverRenewingAdmitsExactlyWhen` | crates/symbiotic-credential-process/src/registry.rs:507-518 | without an interval a key is admitted exactly while fewer than `attempts` kept sends follow its last success |
| `BudgetTheorems.NeverRenewsEarly` | crates/symbiotic-credential-process/src/registry.rs:507-514 | even after the clock went back, a cohort is dropped only the whole interval after every kept send it counts |
| `GatedBudget.ConcurrentWindowBound` | crates/symbiotic-credential-process/src/lib.rs:674-792 | under every interleaving of gated dispatch tasks, other transactions and restarts, a key's row is that of a serialised trace and the window bound holds |
| `GatedBudget.ConcurrentRenewalAdmits` | crates/symbiotic-credential-process/src/lib.rs:674-792 | under every interleaving no admission is refused for budget once the interval has passed since each send and completion of the key, and with a zero interval none ever is |
| `GatedBudget.ConcurrentRefusalOnlyWhenSpent` | crates/symbiotic-credential-process/src/lib.rs:674-792 | the same under every interleaving of gated dispatch tasks, transactions and restarts |
| `GatedBudget.ConcurrentUndoLeavesNoTrace` | crates/symbiotic-credential-process/src/lib.rs:674-792 | under every interleaving a send undone before it left is as if it had never been admitted |
| `GatedBudget.InterleaveKeeps` | crates/symbiotic-credential-process/src/lib.rs:674-792 | under every interleaving tables and task memory refine one serialised trace per key |
| `GatedBudget.OthersLeaveBudgets` | crates/symbiotic-credential-process/src/registry.rs:434-475 | no transaction without a budget admission changes a budget |
| `Gates.OneHolderPerKey` | crates/symbiotic-credential-process/src/lib.rs:278-333 | under every interleaving all live registrations of a key share one mutex, at most one holds it, and the map's keys are exactly the keys with a live registration |
| `Gates.WaitsOnlyForHolder` | crates/symbiotic-credential-process/src/lib.rs:286-295 | under every interleaving a waiting task can take its mutex exactly when no task of its key holds it, and a holder can always let go |
| `Gates.StepKeeps` | crates/symbiotic-credential-process/src/lib.rs:278-333 | register, wait, acquire, cancel, unlock and depart keep counts, sharing and ownership |
| `Gates.LastOne` | crates/symbiotic-credential-process/src/lib.rs:297-316 | a departing registration retires its key if and only if it was the last live one |
| `Gates.DispatchTasks.Enter` | crates/symbiotic-credential-process/src/lib.rs:318-333 | registering through the shared map is the protocol's register step and keeps its invariant; a poisoned map changes nothing |
| `Gates.DispatchTasks.Leave` | crates/symbiotic-credential-process/src/lib.rs:297-316 | leaving through the shared map is the protocol's depart step; the key goes if and only if no other registration is live |
| `Gates.RequestBudgetDispatch.LookUp` | crates/symbiotic-credential-process/src/lib.rs:318-333 | lookup upgrades the weak entry or allocates, and refuses a poisoned map |
| `Gates.RequestBudgetDispatch.Drop` | crates/symbiotic-credential-process/src/lib.rs:297-316 | dropping gives up the reference and retires the key with its last one |
| `Database.Database.FinishIn` | crates/symbiotic-ai-runtime/src/spend.rs:349-405 | settles as the ledger function, then retires request bindings as the trigger does |
| `Database.Database.Reserve` | crates/symbiotic-ai-runtime/src/spend.rs:493-501 | one transaction: the account row an exhausted limit left behind is rolled back with the rest |
| `Database.Database.ExpireAnswers` | crates/symbiotic-ai-runtime/src/spend.rs:154-170 | the loop, one committed batch of at most 64 rows at a time, ends, equals one filter over all receipts expired at its sample and returns how many there were |
| `Database.Database.PurgeAnswers` | crates/symbiotic-ai-runtime/src/spend.rs:508-542 | collecting then erasing by reference equals one filter and returns how many matched |
| `Database.Database.Issue` | crates/symbiotic-credential-process/src/registry.rs:182-197 | exactly this attempt is replayed without a transaction; otherwise one transaction issues or changes nothing |
| `Database.Database.Consume` | crates/symbiotic-credential-process/src/registry.rs:308-331 | one transaction: permit and reservation commit together or neither does |
| `Database.Database.Complete` | crates/symbiotic-credential-process/src/lib.rs:674-792 | one transaction for how a dispatch ended; a failed one leaves the Unknown receipt |
| `Database.AlwaysGood` | crates/symbiotic-credential-process/src/registry.rs:182-765 | every database object satisfies the joint invariant |
| `Deliveries.DeliveryQueue.Completions` | crates/symbiotic-ai-runtime/src/jobs.rs:440-495 | a page leases exactly the returned items, its total is within the bound and one more would not fit; a refusal changes nothing and names the oversize job |
| `Deliveries.ChargeCoversWhen` | crates/symbiotic-ai-runtime/src/jobs.rs:463-470 | an item's encoding is within its preflighted size if and only if its answer did not reappear between the two clock reads, nor expire while shorter than its replacement |
| `Deliveries.DisclosedExactlyWhen` | crates/symbiotic-ai-runtime/src/jobs.rs:476-484 | an item carries an answer if and only if its delivery is neither purged nor expired and the saved answer is readable; a paid answer that is gone is flagged, and nothing else is |
| `Deliveries.ExpiredIsForgotten` | crates/symbiotic-ai-runtime/src/jobs.rs:485-487 | a saved answer survives a page if and only if no delivery of its receipt was returned as expired |
| `Deliveries.PageExact` | crates/symbiotic-ai-runtime/src/jobs.rs:452-493 | with a still clock the total is the encoded size of the items plus one byte per result flagged as lost |
| `Deliveries.PageCovered` | crates/symbiotic-ai-runtime/src/jobs.rs:452-493 | without an undercharged item the encoded page is within the total |
| `Deliveries.SteadyClockCovers` | crates/symbiotic-ai-runtime/src/jobs.rs:452-493 | a clock that does not go back and answers of at least four bytes never undercharge |
| `Deliveries.PageDecided` | crates/symbiotic-ai-runtime/src/jobs.rs:452-493 | a page length within the bounds is the only one, and excludes an oversize delivery |
| `Deliveries.UnderchargedOverflows` | crates/symbiotic-ai-runtime/src/jobs.rs:463-486 | every undercharged delivery, whatever its text, is longer than a page bound equal to its total, and still makes a page of that bound |
| `Deliveries.UnderchargedInputs` | crates/symbiotic-ai-runtime/src/jobs.rs:463-486 | two inputs that undercharge, for arbitrary delivery text: a clock that goes back, and a forward clock with an answer of two bytes |
| `Deliveries.LeasesOverBound` | crates/symbiotic-ai-runtime/src/jobs.rs:440-495 | the page of an undercharged delivery is leased although its encoding exceeds the bound |
| `CompletionPages.AddNotices` | crates/symbiotic-credential-process/src/jobs.rs:667-708 | `used` equals the encoded page at every turn without underflow; as many notices as fit, the cursor is the last one; the refusal is exact |
| `CompletionPages.NoticeGrows` | crates/symbiotic-credential-process/src/jobs.rs:684-706 | a notice grows the encoded page by its text, a comma and the change of cursor |
| `CompletionPages.Poll` | crates/symbiotic-credential-process/src/jobs.rs:640-708 | a returned page encodes within max_bytes, leases exactly its items and stays within the limit; an error leases nothing unless the leased items alone overflow the page, and then it always comes after the leases |
| `CompletionPages.OverflowIsUndercharged` | crates/symbiotic-credential-process/src/jobs.rs:667-670 | only an undercharged item overflows a page |
| `CompletionPages.PollLeasesAndFails` | crates/symbiotic-credential-process/src/jobs.rs:667-670 | every undercharged delivery does so: the poll leases it and answers InvalidRequest |
| `CompletionPages.Serve` | crates/symbiotic-credential-process/src/jobs.rs:610-728 | the reply frame fits the frame limit, an empty page is returned only when time is up, the leases are those of the returned page alone, and an error leases nothing unless the items of its last turn overflow the page |
| `CompletionPages.NeverUndercharged` | crates/symbiotic-ai-runtime/src/jobs.rs:463-486 | that exception needs the clock to go back or an answer shorter than four bytes |
| `Classifier.ValidateRequest` | crates/symbiotic-model/src/classify.rs:214-251 | accepts exactly the requests with questions, distinct non-empty ids, non-empty options and at least two levels |
| `Classifier.ChoiceProbabilities` | crates/symbiotic-model/src/classify.rs:616-645 | succeeds if and only if exactly the requested options are reported, each in tolerance, with an acceptable sum; then the rescaled numbers in request order |
| `Classifier.ScoreProbabilities` | crates/symbiotic-model/src/classify.rs:649-666 | the same for levels named by their decimal index |
| `Classifier.DistributionIsOne` | crates/symbiotic-model/src/classify.rs:668-682 | rescaled numbers are probabilities that sum to exactly 1 |
| `Classifier.ProperDistributionReadsBack` | crates/symbiotic-model/src/classify.rs:616-682 | a reply that states a proper distribution is read back unchanged |
| `Classifier.ToleranceIsAMillionth` | crates/symbiotic-model/src/classify.rs:604-610 | a number is accepted within a millionth of the unit interval and becomes the nearest probability |
| `Classifier.LevelsAreWeighted` | crates/symbiotic-model/src/classify.rs:789-795 | sum and score are linear: a change at level k counts once in the sum and k times in the score |
| `Classifier.CertainLevelScores` | crates/symbiotic-model/src/classify.rs:789-795 | certainty on level k scores k |
| `Classifier.ReadScoreIsBetweenLevels` | crates/symbiotic-model/src/classify.rs:789-795 | a score read from a reply lies between the least and the greatest level |
| `Classifier.MostProbable` | crates/symbiotic-model/src/classify.rs:779-787 | the first option with the largest probability |
| `Classifier.ValidateAnswers` | crates/symbiotic-model/src/classify.rs:690-777 | accepts exactly the answers that fit their questions |
| `Classifier.ReadFits` | crates/symbiotic-model/src/classify.rs:1447-1480 | whatever is read from a reply passes the final validation, for every request |
| `Classifier.ParseReply` | crates/symbiotic-model/src/classify.rs:1434-1484 | succeeds if and only if the reply names every question once, nothing else, and each value is legible; the final validation never refuses |
| `Classifier.ChosenStatesLargestWhen` | crates/symbiotic-model/src/classify.rs:604-610 | the chosen option states the first largest number if and only if the first option stating 1 or more, if any, states the largest |
| `Classifier.SmallerNumberChosen` | crates/symbiotic-model/src/classify.rs:604-610 | a concrete reply in which the option with the smaller stated number is chosen |
| `ChoiceDecision.DecisionRule` | crates/symbiotic-model/src/classify.rs:429-473 | for every validated response the decision is `chosen` if it is not the abstain option and reaches the minimum, and otherwise to abstain |
| `ChoiceDecision.UndecidedExactlyWhen` | crates/symbiotic-model/src/classify.rs:429-444 | there is no decision if and only if the question is not a choice |
| `Wire.CappedWriter.Write` | crates/symbiotic-model/src/wire.rs:20-32 | a chunk is taken whole if and only if it fits what is left |
| `Wire.Encode` | crates/symbiotic-model/src/wire.rs:37-50 | accepts if and only if the whole output fits, for every chunking, and keeps all of it |
| `Wire.EncodedLen` | crates/symbiotic-model/src/wire.rs:53-63 | the exact length if and only if it is within the bound |
| `Wire.CheckLimits` | crates/symbiotic-model/src/classify.rs:934-967 | accepts if and only if counts fit, state and each question fit the pair budget and all fit the total; no subtraction goes below zero |
| `CachePrune.ResponseCache.Prune` | crates/symbiotic-model/src/queue_runtime.rs:292-313 | removes exactly the shortest oldest-first prefix that leaves nothing expired and sizes that fit; an entry that cannot be removed stops it after the ones before |
| `CacheWalk.Entries` | crates/symbiotic-model/src/queue_runtime.rs:337-362 | the listing holds exactly the entry files of the tree; the walk is refused if and only if something in it is not the user's own or cannot be read |
| `CacheWalk.PruneTree` | crates/symbiotic-model/src/queue_runtime.rs:292-313 | a refused walk deletes nothing; otherwise the listed entries are pruned, up to the first one that cannot be removed |
| `CachePrune.GoesOrStays` | crates/symbiotic-model/src/queue_runtime.rs:300-312 | an entry goes exactly while no cut is reached, and the running total is the size of what is left |
| `CachePrune.AgeIsInclusive` | crates/symbiotic-model/src/queue_runtime.rs:365-374 | an entry expires from the first moment past its age; an unreadable or future time never does |
| `CachePrune.CutIsUnique` | crates/symbiotic-model/src/queue_runtime.rs:289-291 | there is only one such prefix |
| `CachePrune.RestAcceptable` | crates/symbiotic-model/src/queue_runtime.rs:365-374 | in age order one entry that may stay settles it for all later ones |
| `CachePrune.SortedOrders` | crates/symbiotic-model/src/queue_runtime.rs:297-299 | the order is by age, a permutation, and stable |

## Left out

- The job store behind job requests: which jobs are ready, retried or refused, and its own errors, are inputs; a job completion is modelled by its effect on ledger and permits.
- Error values of ledger calls inside a job claim, which the job store maps to its own codes.
- The job saved-answer policy lookup: whether a job erased its answer and its deadline are inputs.
- Overflow of a retention deadline and of encoded lengths past the machine word, which the code reports as storage errors.
- Database.Database.Issue: the method runs the look-up and its transaction without a gap; in a run the issue event is the transaction alone, so others may fall between.
- Database.Database.AcceptJob: the job store's claim, its savepoint and its error codes are left out; only the joint effect on ledger and permits is modelled.
- Database.Database.FinishJob: the job row written in the same transaction is left out.
- Database.Database.ReserveHandoffIn: writes the handoff input with the row instead of in a second statement of the same transaction.
- Gates.RequestBudgetDispatch.LookUp: when a mutex becomes poisoned is not modelled, only that lookup then refuses.
- CompletionPages.Serve: the check of the requested wait against the socket timeout and the start of the job runner on an empty page are left out; what each turn finds is an input.
- CacheWalk.Entries: the tree does not change while it is walked, and whether a path is the user's own is an input.
- CachePrune.ResponseCache.Prune: the sum of sizes is unbounded.
- Classifier.ParseReply: JSON parsing itself, duplicate object keys and non-finite numbers; rounding of f64 is left out by using reals.
- The Jev answer mapping with its sum and score tolerances, prompt rendering and the queue wrapper: they add only easier members to the shared distribution code.
- Deadlines are RFC 3339 text compared as strings in the ledger; the model compares integers and does not show that the two orders agree.
- SQLite itself, schema versions, indexes and query plans: a transaction is atomic and a rollback is the old tables.
- HTTP adapters, sockets, secret loading, admission signatures, route configuration, diagnostics tables, retrieval, rendering and maintenance threads.
