/** The operational database as an object: its tables change step by step inside a
    transaction, an error restores the tables the transaction began with, and `history`
    records every transaction, so each object is in a state that some run reaches. */
module Database {
  import opened Tables
  import opened Records
  import opened LedgerInvariants
  import opened RegistryInvariants
  import opened AnswerSweeps
  import opened Runs
  import SpendLedger
  import Registry
  import RequestBudget
  import Expiry

  class Database {
    var used: map<string, nat>
    var receipts: seq<Receipt>
    var permits: seq<Permit>
    var revisions: map<GrantKey, nat>
    var failures: map<string, Failure>
    ghost var history: seq<Event>

    function View(): Store
      reads this
    {
      Store(Ledger(used, receipts), permits, revisions, failures)
    }

    ghost predicate Valid()
      reads this
    {
      View() == Run(EMPTY_STORE, history)
    }

    constructor ()
      ensures Valid() && history == []
    {
      used, receipts, permits, revisions, failures := map[], [], [], map[], map[];
      history := [];
    }

    method Restore(s: Store)
      modifies this
      ensures View() == s && history == old(history)
    {
      used, receipts := s.ledger.used, s.ledger.receipts;
      permits, revisions, failures := s.permits, s.revisions, s.failures;
    }

    /** Commit: the tables are now those after one more event. */
    ghost method Record(e: Event)
      requires View() == Step(Run(EMPTY_STORE, history), e)
      modifies this`history
      ensures Valid() && history == old(history) + [e]
    {
      assert (history + [e])[..|history|] == history;
      history := history + [e];
    }

    // ---- Statements inside a transaction ----------------------------------------

    /** The row to insert for a fresh reference; reads only. */
    method NextReceiptIn(r: Reservation, limit: Option<u32>, handoff: Option<string>)
      returns (result: Result<Receipt, LedgerError>)
      ensures result == SpendLedger.NextReceipt(View().ledger, r, limit, handoff)
    {
      hide FindLast;
      var previous := Newest(receipts, SpendLedger.InChain(r.account, r.invocation));
      var explicit := limit.Some? || (previous.Some? && previous.value.attemptLimit.Some?);
      if (explicit || handoff.Some?) && previous.Some? {
        if previous.value.output {
          return Err(if explicit then InvocationCompleted else Conflict);
        }
        if previous.value.state == Settled {
          return Err(Conflict);
        }
      }
      if FindLast(receipts, SpendLedger.UnknownIn(r.account, r.invocation)).Some? {
        return Err(Conflict);
      }
      var frozen :=
        if previous.Some? && previous.value.attemptLimit.Some? then previous.value.attemptLimit else limit;
      var attempts := if previous.Some? then previous.value.attemptsUsed else 0;
      if frozen.Some? && attempts >= frozen.value {
        return Err(AttemptBudgetExhausted);
      }
      if frozen.Some? {
        if attempts >= U32_MAX {
          return Err(Storage);
        }
        attempts := attempts + 1;
      } else {
        attempts := 0;
      }
      return Ok(Receipt(r, Unknown, None, false, handoff, None, false, frozen, attempts, None));
    }

    /** An error may leave the account row behind; the transaction rolls it back. */
    method ChargeIn(row: Receipt) returns (result: Result<(), LedgerError>)
      modifies this`used, this`receipts
      ensures match SpendLedger.Charge(old(View()).ledger, row)
              case Err(e) => result == Err(e)
              case Ok(l) => result == Ok(()) && View() == old(View()).(ledger := l)
    {
      var account, limit := row.reservation.account, row.reservation.requestLimit;
      if limit.Some? && limit.value > I64_MAX {
        return Err(Storage);
      }
      if account !in used {
        used := used[account := 0];
      }
      if !(used[account] < I64_MAX && (limit.None? || used[account] < limit.value)) {
        return Err(SpendBudgetExhausted);
      }
      used := used[account := used[account] + 1];
      receipts := receipts + [row];
      assert used == old(used)[account := SpendLedger.Used(old(View()).ledger, account) + 1];
      return Ok(());
    }

    method ReserveIn(r: Reservation, limit: Option<u32>, handoff: Option<string>)
      returns (result: Result<bool, LedgerError>)
      modifies this`used, this`receipts
      ensures match SpendLedger.Reserve(old(View()).ledger, r, limit, handoff)
              case Err(e) => result == Err(e)
              case Ok((accepted, l)) => result == Ok(accepted) && View() == old(View()).(ledger := l)
    {
      hide FindLast, SpendLedger.NextReceipt, SpendLedger.Charge;
      var previous := Newest(receipts, SpendLedger.InChain(r.account, r.invocation));
      if previous.Some? && previous.value.reservation.binding != r.binding {
        return Err(Conflict);
      }
      var existing := Newest(receipts, SpendLedger.HasReference(r.reference));
      if existing.Some? {
        return if existing.value.reservation == r then Ok(false) else Err(Conflict);
      }
      var row := NextReceiptIn(r, limit, handoff);
      if row.Err? {
        return Err(row.error);
      }
      var charged := ChargeIn(row.value);
      return if charged.Ok? then Ok(true) else Err(charged.error);
    }

    method ReserveHandoffIn(handoff: Handoff) returns (result: Result<bool, LedgerError>)
      modifies this`used, this`receipts
      ensures match SpendLedger.ReserveHandoff(old(View()).ledger, handoff)
              case Err(e) => result == Err(e)
              case Ok((accepted, l)) => result == Ok(accepted) && View() == old(View()).(ledger := l)
    {
      hide SpendLedger.Reserve;
      if handoff.inputIdentity == "" {
        return Err(Conflict);
      }
      var existing := Newest(receipts, SpendLedger.HasReference(handoff.reservation.reference));
      ReattachesToExisting(View().ledger, handoff.reservation, Some(handoff.inputIdentity));
      var reserved := ReserveIn(handoff.reservation, None, Some(handoff.inputIdentity));
      if reserved.Err? {
        return reserved;
      }
      if !reserved.value && existing.value.handoffInput != Some(handoff.inputIdentity) {
        return Err(Conflict);
      }
      return reserved;
    }

    /** Settle a receipt; the trigger on its state retires request bindings. */
    method FinishIn(reference: string, state: SpendState, usage: Option<Usage>, output: bool)
      returns (result: Result<(), LedgerError>)
      modifies this`used, this`receipts, this`permits
      ensures match SpendLedger.Finish(old(View()).ledger, reference, state, usage, output)
              case Err(e) => result == Err(e)
              case Ok(l) => result == Ok(()) && View() == Registry.WithLedger(old(View()), reference, l)
    {
      hide FindLast, Registry.WithLedger, Registry.Retire;
      var found := FindLast(receipts, SpendLedger.HasReference(reference));
      if found.None? {
        return Err(Conflict);
      }
      var prior := receipts[found.value];
      if (state == Settled && !(usage.Some? && Measured(usage.value)))
         || (state == Released && (prior.output || output)) {
        return Err(Conflict);
      }
      var evidence := output || prior.output;
      if prior.state != Unknown {
        Untriggered(View(), reference);
        return if prior.state == state && prior.usage == usage && prior.output == evidence then Ok(())
               else Err(Conflict);
      }
      if state == Released {
        if SpendLedger.Used(Ledger(used, receipts), prior.reservation.account) == 0 {
          return Err(Storage);
        }
        used := used[prior.reservation.account := used[prior.reservation.account] - 1];
      }
      var row := prior.(state := state, usage := usage, output := evidence);
      Triggered(old(View()), reference, found.value, row, used);
      receipts := receipts[found.value := row];
      if state == Released || state == Settled {
        permits := Registry.Retire(permits, reference);
      }
      return Ok(());
    }

    method ReleaseIn(reference: string) returns (result: Result<(), LedgerError>)
      modifies this`used, this`receipts, this`permits
      ensures match SpendLedger.Release(old(View()).ledger, reference)
              case Err(e) => result == Err(e)
              case Ok(l) => result == Ok(()) && View() == Registry.WithLedger(old(View()), reference, l)
    {
      var found := FindLast(receipts, SpendLedger.HasReference(reference));
      hide SpendLedger.Finish, FindLast, Registry.WithLedger, Registry.Retire;
      if found.None? {
        return Err(Conflict);
      }
      var prior := receipts[found.value];
      if prior.state != Unknown && !prior.preDispatchReleased {
        return Err(Conflict);
      }
      FinishKeepsIndex(View().ledger, reference, Released, None, false);
      var finished := FinishIn(reference, Released, None, false);
      if finished.Err? {
        return finished;
      }
      var row := receipts[found.value];
      var returned := row.attemptLimit.Some? && !row.preDispatchReleased;
      var marked := row.(preDispatchReleased := true,
                         attemptsUsed := if returned then row.attemptsUsed - 1 else row.attemptsUsed);
      MarkingKeepsTrigger(old(View()), View().ledger, reference, found.value, marked);
      receipts := receipts[found.value := marked];
      return Ok(());
    }

    method SaveAnswerIn(reference: string, output: Option<string>, retention: nat, deadline: Option<int>,
                        policy: JobPolicy, at: Clock) returns (result: Result<(), LedgerError>)
      modifies this`receipts
      ensures match SpendLedger.SaveAnswer(old(View()).ledger, reference, output, retention, deadline, policy, at)
              case Err(e) => result == Err(e)
              case Ok(l) => result == Ok(()) && View() == old(View()).(ledger := l)
    {
      hide FindLast;
      if output == Some(SpendLedger.EVIDENCE) {
        return Ok(());
      }
      var found := FindLast(receipts, SpendLedger.HasReference(reference));
      if found.None? {
        return Err(Conflict);
      }
      var prior := receipts[found.value];
      var until := SpendLedger.Earlier(deadline, policy.deadline);
      if prior.attemptLimit.Some? && prior.output && output.Some? && SpendLedger.Readable(prior, at.second) != output {
        return Err(Conflict);
      }
      if prior.attemptLimit.Some? && !prior.output && output.Some? {
        var expires := at.first + retention;
        if until.Some? && until.value <= expires {
          expires := until.value;
        }
        if policy.erased || (until.Some? && until.value <= at.first) {
          return Ok(());
        }
        receipts := receipts[found.value := prior.(recovery := Some(SavedAnswer(output.value, expires)))];
      }
      return Ok(());
    }

    method FinishWithAnswerIn(reference: string, state: SpendState, usage: Option<Usage>, output: Option<string>,
                              evidence: bool, retention: nat, deadline: Option<int>, policy: JobPolicy, at: Clock)
      returns (result: Result<(), LedgerError>)
      modifies this`used, this`receipts, this`permits
      ensures match SpendLedger.FinishWithAnswer(old(View()).ledger, reference, state, usage, output, evidence,
                                                 retention, deadline, policy, at)
              case Err(e) => result == Err(e)
              case Ok(l) => result == Ok(()) && View() == Registry.WithLedger(old(View()), reference, l)
    {
      SavingKeepsState(View().ledger, reference, output, retention, deadline, policy, at);
      hide SpendLedger.SaveAnswer, SpendLedger.Finish, SpendLedger.StateOf;
      result := SaveAnswerIn(reference, output, retention, deadline, policy, at);
      if result.Ok? {
        result := FinishIn(reference, state, usage, evidence || output.Some?);
      }
    }

    method IssueIn(a: Attempt, maxAttempts: nat, at: Clock, token: string) returns (result: Result<(), EgressError>)
      modifies this`permits
      ensures match Registry.IssueIn(old(View()), a, maxAttempts, at, token)
              case Err(e) => result == Err(e)
              case Ok(s) => result == Ok(()) && View() == s
    {
      hide Registry.LatestPermit, FindLast;
      if !Registry.CurrentRevision(View(), a) {
        return Err(RouteRefused);
      }
      var latest := Registry.LatestPermit(permits, a.invocation);
      var accepted: nat := 0;
      if latest.Some? {
        var previous := permits[latest.value];
        if previous.attempt.Binding() != a.Binding() {
          return Err(EgressError.InvalidRequest);
        }
        if a.ordinal <= previous.attempt.ordinal {
          return Err(PermitRefused);
        }
        if a.recordSequence <= previous.attempt.recordSequence {
          return Err(EgressError.InvalidRequest);
        }
        accepted := previous.acceptedAttempts;
        if previous.consumed
           || (previous.attempt.grantRevision == a.grantRevision && at.first < previous.attempt.expiresAt) {
          if previous.receipt.None? {
            return Err(ReconciliationRequired);
          }
          if previous.receipt.value.status == Succeeded {
            return Err(InvocationComplete);
          }
          if SpendLedger.StateOf(View().ledger, previous.receipt.value.reference) != Some(Released) {
            return Err(ReconciliationRequired);
          }
        }
      }
      if accepted >= maxAttempts {
        return Err(BudgetRefused);
      }
      if at.second >= a.expiresAt {
        return Err(AuthorityExpired);
      }
      permits := permits + [Permit(a, token, accepted, false, InFlight, None, None, None)];
      return Ok(());
    }

    method AcceptIn(a: Attempt, token: string, reference: string, maxAttempts: nat, now: nat)
      returns (result: Result<(), EgressError>)
      modifies this`permits
      ensures match Registry.AcceptIn(old(View()), a, token, reference, maxAttempts, now)
              case Err(e) => result == Err(e)
              case Ok(s) => result == Ok(()) && View() == s
    {
      hide FindLast;
      var found := FindLast(permits, Registry.Pending(a, token));
      if found.None? {
        return Err(PermitRefused);
      }
      var p := permits[found.value];
      if !Registry.CurrentRevision(View(), a) {
        return Err(RouteRefused);
      }
      if Registry.Superseded(permits, a) {
        return Err(PermitRefused);
      }
      if p.acceptedAttempts >= maxAttempts {
        return Err(BudgetRefused);
      }
      if now >= a.expiresAt {
        return Err(AuthorityExpired);
      }
      permits := permits[found.value :=
        p.(consumed := true, receipt := Some(StoredReceipt(ProviderFailed, reference)),
           acceptedAttempts := p.acceptedAttempts + 1)];
      return Ok(());
    }

    method AcceptJobIn(a: Attempt, reference: string, maxAttempts: nat, at: Clock, token: string)
      returns (result: Result<(), EgressError>)
      modifies this`permits
      ensures match Registry.AcceptJobIn(old(View()), a, reference, maxAttempts, at, token)
              case Err(e) => result == Err(e)
              case Ok(s) => result == Ok(()) && View() == s
    {
      hide Registry.AcceptIn, Registry.IssueIn, FindLast;
      var existing := Newest(permits, Registry.AtOrdinal(a.invocation, a.ordinal));
      var presented := token;
      if existing.Some? {
        if existing.value.attempt != a {
          return Err(PermitRefused);
        }
        presented := existing.value.token;
      } else {
        result := IssueIn(a, maxAttempts, at, token);
        if result.Err? {
          return;
        }
      }
      result := AcceptIn(a, presented, reference, maxAttempts, at.third);
    }

    /** Debit the request budget of a key. */
    method AdmitBudgetIn(key: string, policy: BudgetPolicy, now: nat)
      returns (result: Result<BudgetAdmission, EgressError>)
      modifies this`failures
      ensures match RequestBudget.Debit(policy, if key in old(failures) then Some(old(failures)[key]) else None, now)
              case Err(e) => result == Err(e)
              case Ok((debited, previous)) =>
                result == Ok(BudgetAdmission(key, previous)) && failures == old(failures)[key := debited]
    {
      var previous := if key in failures then Some(failures[key]) else None;
      if previous.Some? && RequestBudget.Renewed(policy, previous.value, now) {
        previous := None;
      }
      var failed := if previous.Some? then previous.value.failedSends else 0;
      if failed >= policy.attempts {
        return Err(RequestBudgetExhausted);
      }
      var last := now;
      if previous.Some? && previous.value.lastFailure > now {
        last := previous.value.lastFailure;
      }
      failures := failures[key := Failure(failed + 1, last)];
      return Ok(BudgetAdmission(key, previous));
    }

    method AdmitIn(a: Attempt, key: string, policy: Option<BudgetPolicy>, now: nat)
      returns (result: Result<Option<BudgetAdmission>, EgressError>)
      modifies this`permits, this`failures
      ensures match Registry.Admit(old(View()), a, key, policy, now)
              case Err(e) => result == Err(e)
              case Ok((s, admission)) => result == Ok(admission) && View() == s
    {
      hide FindLast, RequestBudget.Debit, SpendLedger.StateOf;
      var unresolved := Newest(permits, Registry.UnresolvedFor(View().ledger, key));
      if unresolved.Some? {
        return Err(if unresolved.value.receipt.Some?
                      && SpendLedger.StateOf(View().ledger, unresolved.value.receipt.value.reference).Some?
                   then ReconciliationRequired else StateUnavailable);
      }
      var found := FindLast(permits, Registry.InFlightFor(a));
      if found.None? || permits[found.value].requestKey.Some? {
        return Err(PermitRefused);
      }
      permits := permits[found.value := permits[found.value].(requestKey := Some(key))];
      if policy.None? {
        return Ok(None);
      }
      var admission := AdmitBudgetIn(key, policy.value, now);
      return if admission.Ok? then Ok(Some(admission.value)) else Err(admission.error);
    }

    /** Settle the debit of a finished dispatch. */
    method SettleBudgetIn(budget: BudgetAdmission, outcome: RequestBudget.Settlement, now: nat)
      modifies this`failures
      ensures failures == Registry.SettledBudget(old(failures), budget, outcome, now)
    {
      match outcome {
        case Success =>
          failures := failures - {budget.key};
        case PreSendFailure =>
          if budget.previous.Some? {
            if budget.key in failures {
              failures := failures[budget.key := budget.previous.value];
            } else {
              assert failures - {budget.key} == failures;
            }
          } else {
            failures := failures - {budget.key};
          }
        case RecordedFailure =>
          if budget.key in failures {
            var row := failures[budget.key];
            var last := if row.lastFailure > now then row.lastFailure else now;
            failures := failures[budget.key := row.(lastFailure := last)];
          } else {
            assert failures - {budget.key} == failures;
          }
      }
    }

    method FinishDispatchIn(mode: AnswerRecovery, outcome: DispatchResult, budget: Option<BudgetAdmission>,
                            outputReceived: bool, at: Clock) returns (result: Result<(), EgressError>)
      modifies this`used, this`receipts, this`permits, this`failures
      ensures match Registry.FinishDispatch(old(View()), mode, outcome, budget, outputReceived, at)
              case Err(e) => result == Err(e)
              case Ok(s) => result == Ok(()) && View() == s
    {
      hide FindLast, SpendLedger.Finish, Registry.WithLedger, Registry.SettledBudget, Registry.FinishedPermit;
      hide Registry.UsageEvidence;
      var receipt := outcome.receipt;
      var found := FindLast(permits, Registry.InFlightFor(receipt.attempt));
      if found.None? {
        return Err(StateUnavailable);
      }
      permits := permits[found.value := Registry.FinishedPermit(permits[found.value], outcome, mode, at.first)];
      var finished := FinishIn(receipt.stored.reference, receipt.spendState,
                               Registry.UsageEvidence(mode, receipt.usage, outputReceived), outputReceived);
      if finished.Err? {
        return Err(Registry.LedgerRefusal(finished.error));
      }
      if budget.Some? {
        if outcome.answer.Some? {
          SettleBudgetIn(budget.value, RequestBudget.Success, at.second);
        } else if receipt.spendState == Released {
          SettleBudgetIn(budget.value, RequestBudget.PreSendFailure, at.second);
        } else {
          SettleBudgetIn(budget.value, RequestBudget.RecordedFailure, at.second);
        }
      }
      return Ok(());
    }

    // ---- Transactions -----------------------------------------------------------

    method Reserve(at: Clock, r: Reservation, limit: Option<u32>) returns (result: Result<bool, LedgerError>)
      requires Valid()
      modifies this
      ensures Valid() && history == old(history) + [Event(at, OpReserve(r, limit))]
      ensures View() == Step(old(View()), Event(at, OpReserve(r, limit)))
      ensures match SpendLedger.Reserve(old(View()).ledger, r, limit, None)
              case Err(e) => result == Err(e)
              case Ok((accepted, _)) => result == Ok(accepted)
    {
      hide Run, SpendLedger.Reserve;
      var before := View();
      result := ReserveIn(r, limit, None);
      if result.Err? {
        Restore(before);
      }
      Record(Event(at, OpReserve(r, limit)));
    }

    method AcquireHandoff(at: Clock, handoff: Handoff, account: string, input: string, owner: string)
      returns (result: Result<(), LedgerError>)
      requires Valid()
      modifies this
      ensures Valid() && history == old(history) + [Event(at, OpAcquire(handoff, account, input, owner))]
      ensures View() == Step(old(View()), Event(at, OpAcquire(handoff, account, input, owner)))
      ensures result.Ok? <==> SpendLedger.AcquireHandoff(old(View()).ledger, handoff, account, input, owner).Ok?
    {
      hide Run, FindLast;
      result := Err(Conflict);
      var found := FindLast(receipts, SpendLedger.HasReference(handoff.reservation.reference));
      if found.Some? {
        var prior := receipts[found.value];
        if prior.reservation == handoff.reservation && prior.state == Unknown
           && prior.reservation.account == account && handoff.inputIdentity == input && owner != ""
           && prior.handoffInput == Some(input) && prior.dispatchOwner.None? {
          receipts := receipts[found.value := prior.(dispatchOwner := Some(owner))];
          result := Ok(());
        }
      }
      Record(Event(at, OpAcquire(handoff, account, input, owner)));
    }

    method Reconcile(at: Clock, reference: string, state: SpendState, usage: Option<Usage>, output: Option<string>,
                     retention: nat, policy: JobPolicy) returns (result: Result<(), LedgerError>)
      requires Valid()
      modifies this
      ensures var e := Event(at, OpReconcile(reference, state, usage, output, retention, policy));
              Valid() && history == old(history) + [e] && View() == Step(old(View()), e)
      ensures result.Ok? <==> SpendLedger.FinishWithAnswer(old(View()).ledger, reference, state, usage, output, false,
                                                           retention, None, policy, at).Ok?
    {
      hide Run, SpendLedger.FinishWithAnswer, Registry.WithLedger;
      var before := View();
      result := FinishWithAnswerIn(reference, state, usage, output, false, retention, None, policy, at);
      if result.Err? {
        Restore(before);
      }
      Record(Event(at, OpReconcile(reference, state, usage, output, retention, policy)));
    }

    method Release(at: Clock, reference: string) returns (result: Result<(), LedgerError>)
      requires Valid()
      modifies this
      ensures Valid() && history == old(history) + [Event(at, OpRelease(reference))]
      ensures View() == Step(old(View()), Event(at, OpRelease(reference)))
      ensures result.Ok? <==> SpendLedger.Release(old(View()).ledger, reference).Ok?
    {
      hide Run, SpendLedger.Release, Registry.WithLedger;
      var before := View();
      result := ReleaseIn(reference);
      if result.Err? {
        Restore(before);
      }
      Record(Event(at, OpRelease(reference)));
    }

    method ConstrainAnswer(at: Clock, reference: string, policy: JobPolicy) returns (result: Result<(), LedgerError>)
      requires Valid()
      modifies this
      ensures Valid() && history == old(history) + [Event(at, OpConstrain(reference, policy))]
      ensures View() == Step(old(View()), Event(at, OpConstrain(reference, policy)))
      ensures result.Ok? <==> SpendLedger.ConstrainAnswer(old(View()).ledger, reference, policy, at.first).Ok?
    {
      hide Run, FindLast;
      result := Err(Storage);
      var found := FindLast(receipts, SpendLedger.HasReference(reference));
      if found.Some? {
        result := Ok(());
        var prior := receipts[found.value];
        if prior.recovery.Some? {
          var until := prior.recovery.value.expiresAt;
          if policy.deadline.Some? && policy.deadline.value < until {
            until := policy.deadline.value;
          }
          if policy.erased || until <= at.first {
            receipts := receipts[found.value := prior.(recovery := None)];
          } else {
            receipts := receipts[found.value := prior.(recovery := Some(prior.recovery.value.(expiresAt := until)))];
          }
        }
      }
      Record(Event(at, OpConstrain(reference, policy)));
    }

    method DiscardAnswer(at: Clock, account: string, invocation: string)
      requires Valid()
      modifies this
      ensures Valid() && history == old(history) + [Event(at, OpDiscard(account, invocation))]
      ensures View() == Step(old(View()), Event(at, OpDiscard(account, invocation)))
    {
      hide Run, FindLast;
      var found := FindLast(receipts, SpendLedger.InChain(account, invocation));
      if found.Some? {
        receipts := receipts[found.value := receipts[found.value].(recovery := None)];
      }
      Record(Event(at, OpDiscard(account, invocation)));
    }

    /** One statement of the expiry loop; it commits on its own. */
    method ExpireBatchAt(at: Clock, cutoff: int) returns (removed: nat)
      requires Valid()
      modifies this
      ensures Valid() && history == old(history) + [Event(at, OpExpireBatch(cutoff))]
      ensures View() == Step(old(View()), Event(at, OpExpireBatch(cutoff)))
      ensures View() == old(View()).(ledger := SpendLedger.ExpireBatch(old(View()).ledger, cutoff))
      ensures removed == |SpendLedger.ExpiryBatch(old(receipts), cutoff)|
    {
      hide Run, SpendLedger.ExpiryBatch;
      var batch := SpendLedger.ExpiryBatch(receipts, cutoff);
      receipts := SpendLedger.WithoutAnswers(receipts, batch);
      Record(Event(at, OpExpireBatch(cutoff)));
      return |batch|;
    }

    /** Clear all answers expired at one sample, at most 64 rows at a time: together the batches
        are one filter over all receipts. */
    method ExpireAnswers(at: Clock) returns (removed: nat, ghost turns: nat)
      requires Valid()
      modifies this
      ensures Valid() && history == old(history) + Repeated(Event(at, OpExpireBatch(at.first)), turns)
      ensures View() == old(View()).(ledger := SpendLedger.Erase(old(View()).ledger, SpendLedger.ExpiredBy(at.first)))
      ensures removed == Count(old(receipts), SpendLedger.ExpiredBy(at.first))
    {
      hide Run, Step, SpendLedger.ExpiryBatch, Expiry.DueRows, SpendLedger.EraseAnswers, Count;
      ghost var start, e := receipts, Event(at, OpExpireBatch(at.first));
      turns := 1;
      BatchTurn(start, start, at.first);
      var batch := ExpireBatchAt(at, at.first);
      removed := batch;
      while batch != 0
        invariant Valid() && history == old(history) + Repeated(e, turns)
        invariant View() == old(View()).(ledger := Ledger(old(used), receipts))
        invariant PartlyExpired(start, receipts, at.first)
        invariant removed + DueCount(receipts, at.first) == DueCount(start, at.first)
        invariant batch == 0 ==> DueCount(receipts, at.first) == 0
        decreases DueCount(receipts, at.first) + batch
      {
        BatchTurn(start, receipts, at.first);
        assert Repeated(e, turns + 1) == Repeated(e, turns) + [e];
        batch := ExpireBatchAt(at, at.first);
        removed := removed + batch;
        turns := turns + 1;
      }
      BatchesAddUp(start, receipts, at.first);
      DueIsCount(start, at.first);
    }

    method EraseByReference(references: seq<string>) returns (removed: nat)
      requires UniqueReferences(receipts)
      requires forall k | 0 <= k < |references| :: Referenced(receipts, references[k])
      modifies this`receipts
      ensures removed == |references| && Purged(old(receipts), receipts, references)
    {
      hide FindLast, UniqueReferences, Referenced;
      removed := 0;
      for k := 0 to |references|
        invariant removed == k && Purged(old(receipts), receipts, references[..k])
      {
        PurgeOne(old(receipts), receipts, references, k);
        var i := FindLast(receipts, SpendLedger.HasReference(references[k])).value;
        receipts := receipts[i := receipts[i].(recovery := None)];
        removed := removed + 1;
      }
      assert references[..|references|] == references;
    }

    /** Read every saved answer first, then erase the matching ones by reference. */
    method PurgeAnswers(at: Clock, answers: set<string>) returns (removed: nat)
      requires Valid()
      modifies this
      ensures Valid() && history == old(history) + [Event(at, OpPurgeAnswers(answers))]
      ensures View() == Step(old(View()), Event(at, OpPurgeAnswers(answers)))
      ensures removed == Count(old(receipts), SpendLedger.AnswerIn(answers))
    {
      hide Run, Step, SpendLedger.EraseAnswers, Count, FindLast;
      Reachable(history);
      ghost var start := receipts;
      assert UniqueReferences(start) by {
        hide RegistryInv, Run;
      }
      var references: seq<string> := [];
      for i := 0 to |receipts|
        invariant receipts == start
        invariant references == MatchingReferences(start[..i], answers)
      {
        assert start[..i + 1][..i] == start[..i];
        if SpendLedger.AnswerIn(answers)(receipts[i]) {
          references := references + [receipts[i].reservation.reference];
        }
      }
      assert start[..|start|] == start;
      hide MatchingReferences, Purged, UniqueReferences, SpendLedger.AnswerIn;
      forall k | 0 <= k < |references|
        ensures Referenced(start, references[k])
      {
        Matches(start, answers, references[k]);
      }
      removed := EraseByReference(references);
      PurgeIsErase(start, receipts, answers);
      PurgeStep(old(View()), at, answers);
      Record(Event(at, OpPurgeAnswers(answers)));
    }

    method Publish(at: Clock, grant: GrantKey, revision: nat) returns (result: Result<(), EgressError>)
      requires Valid()
      modifies this
      ensures Valid() && history == old(history) + [Event(at, OpPublish(grant, revision))]
      ensures View() == Step(old(View()), Event(at, OpPublish(grant, revision)))
      ensures result.Ok? <==> grant !in old(revisions) || old(revisions)[grant] <= revision
    {
      hide Run;
      if grant !in revisions || revisions[grant] <= revision {
        revisions := revisions[grant := revision];
        result := Ok(());
      } else {
        result := Err(RouteRefused);
      }
      Record(Event(at, OpPublish(grant, revision)));
    }

    /** Replays the permit already issued for exactly this attempt without a transaction. */
    method Issue(at: Clock, a: Attempt, maxAttempts: nat, token: string) returns (result: Result<(), EgressError>)
      requires Valid()
      modifies this
      ensures Valid()
      ensures match Newest(old(permits), Registry.AtOrdinal(a.invocation, a.ordinal))
              case Some(p) =>
                && history == old(history) && View() == old(View())
                && (result.Ok? <==> p.attempt == a)
              case None =>
                && history == old(history) + [Event(at, OpIssue(a, maxAttempts, token))]
                && View() == Step(old(View()), Event(at, OpIssue(a, maxAttempts, token)))
                && (result.Ok? <==> Registry.IssueIn(old(View()), a, maxAttempts, at, token).Ok?)
    {
      hide Run, FindLast, Registry.IssueIn;
      var existing := Newest(permits, Registry.AtOrdinal(a.invocation, a.ordinal));
      if existing.Some? {
        return if existing.value.attempt == a then Ok(()) else Err(EgressError.InvalidRequest);
      }
      var before := View();
      result := IssueIn(a, maxAttempts, at, token);
      if result.Err? {
        Restore(before);
      }
      Record(Event(at, OpIssue(a, maxAttempts, token)));
    }

    /** Permit and reservation commit together or not at all. */
    method Consume(at: Clock, a: Attempt, token: string, handoff: Handoff, maxAttempts: nat)
      returns (result: Result<(), EgressError>)
      requires Valid()
      modifies this
      ensures Valid() && history == old(history) + [Event(at, OpConsume(a, token, handoff, maxAttempts))]
      ensures View() == Step(old(View()), Event(at, OpConsume(a, token, handoff, maxAttempts)))
      ensures match Registry.Consume(old(View()), a, token, handoff, maxAttempts, at.first)
              case Err(e) => result == Err(e)
              case Ok(_) => result == Ok(())
    {
      hide Run, Registry.AcceptIn, SpendLedger.ReserveHandoff;
      var before := View();
      result := AcceptIn(a, token, handoff.reservation.reference, maxAttempts, at.first);
      if result.Ok? {
        var reserved := ReserveHandoffIn(handoff);
        if reserved.Err? {
          result := Err(Registry.LedgerRefusal(reserved.error));
        } else if !reserved.value {
          result := Err(PermitRefused);
        }
      }
      if result.Err? {
        Restore(before);
      }
      Record(Event(at, OpConsume(a, token, handoff, maxAttempts)));
    }

    method AcceptJob(at: Clock, a: Attempt, r: Reservation, attemptLimit: u32, maxAttempts: nat, token: string)
      returns (result: Result<(), EgressError>)
      requires Valid()
      modifies this
      ensures Valid() && history == old(history) + [Event(at, OpAcceptJob(a, r, attemptLimit, maxAttempts, token))]
      ensures View() == Step(old(View()), Event(at, OpAcceptJob(a, r, attemptLimit, maxAttempts, token)))
      ensures match Registry.AcceptJob(old(View()), a, r, attemptLimit, maxAttempts, at, token)
              case Err(e) => result == Err(e)
              case Ok(_) => result == Ok(())
    {
      hide Run, Registry.AcceptJobIn, SpendLedger.Reserve;
      var before := View();
      var reserved := ReserveIn(r, Some(attemptLimit), None);
      if reserved.Err? {
        result := Err(Registry.LedgerRefusal(reserved.error));
      } else if !reserved.value {
        result := Err(StateUnavailable);
      } else {
        result := AcceptJobIn(a, r.reference, maxAttempts, at, token);
      }
      if result.Err? {
        Restore(before);
      }
      Record(Event(at, OpAcceptJob(a, r, attemptLimit, maxAttempts, token)));
    }

    method Admit(at: Clock, a: Attempt, key: string, policy: Option<BudgetPolicy>)
      returns (result: Result<Option<BudgetAdmission>, EgressError>)
      requires Valid()
      modifies this
      ensures Valid() && history == old(history) + [Event(at, OpAdmit(a, key, policy))]
      ensures View() == Step(old(View()), Event(at, OpAdmit(a, key, policy)))
      ensures match Registry.Admit(old(View()), a, key, policy, at.first)
              case Err(e) => result == Err(e)
              case Ok((_, admission)) => result == Ok(admission)
    {
      hide Run, Registry.Admit;
      var before := View();
      result := AdmitIn(a, key, policy, at.first);
      if result.Err? {
        Restore(before);
      }
      Record(Event(at, OpAdmit(a, key, policy)));
    }

    method Complete(at: Clock, a: Attempt, execution: Registry.Execution, mode: AnswerRecovery,
                    budget: Option<BudgetAdmission>) returns (result: Result<(), EgressError>)
      requires Valid()
      modifies this
      ensures Valid() && history == old(history) + [Event(at, OpComplete(a, execution, mode, budget))]
      ensures View() == Step(old(View()), Event(at, OpComplete(a, execution, mode, budget)))
      ensures result.Ok? <==> Registry.Complete(old(View()), a, execution, mode, budget, at).Ok?
    {
      hide Run, Registry.FinishDispatch, Registry.Outcome, Registry.HandedOut;
      var before := View();
      var handed := Registry.HandedOut(View(), a);
      if handed.None? {
        result := Err(StateUnavailable);
      } else {
        var (outcome, outputReceived) := Registry.Outcome(handed.value, execution);
        result := FinishDispatchIn(mode, outcome, budget, outputReceived, at);
      }
      if result.Err? {
        Restore(before);
      }
      Record(Event(at, OpComplete(a, execution, mode, budget)));
    }

    method FinishJob(at: Clock, reference: string, state: SpendState, usage: Option<Usage>, output: Option<string>,
                     evidence: bool, retention: nat, deadline: Option<int>, policy: JobPolicy)
      returns (result: Result<(), LedgerError>)
      requires Valid()
      modifies this
      ensures var e := Event(at, OpFinishJob(reference, state, usage, output, evidence, retention, deadline, policy));
              Valid() && history == old(history) + [e] && View() == Step(old(View()), e)
      ensures result.Ok? <==> SpendLedger.FinishWithAnswer(old(View()).ledger, reference, state, usage, output,
                                                           evidence, retention, deadline, policy, at).Ok?
    {
      hide Run, SpendLedger.FinishWithAnswer, Registry.WithLedger, Registry.Retire;
      var before := View();
      result := FinishWithAnswerIn(reference, state, usage, output, evidence, retention, deadline, policy, at);
      if result.Err? {
        Restore(before);
      } else {
        permits := Registry.Retire(permits, reference);
      }
      Record(Event(at, OpFinishJob(reference, state, usage, output, evidence, retention, deadline, policy)));
    }

    /** The writer is taken only when a result is due. */
    method PurgeResults(at: Clock)
      requires Valid()
      modifies this
      ensures Valid() && history == old(history) + [Event(at, OpPurgeResults)]
      ensures View() == Step(old(View()), Event(at, OpPurgeResults))
    {
      hide Run, Expiry.Batch;
      if exists i | 0 <= i < |permits| :: permits[i].result.Some? && permits[i].attempt.recoveryExpiresAt <= at.first {
        permits := Registry.WithoutResults(permits,
          Expiry.Batch(Registry.ResultDeadlines(permits), at.first, Registry.EXPIRY_BATCH_SIZE));
      } else {
        NothingDue(View(), at.first);
      }
      Record(Event(at, OpPurgeResults));
    }
  }

  function Repeated(e: Event, n: nat): seq<Event> {
    seq(n, _ => e)
  }

  lemma PurgeStep(s: Store, at: Clock, answers: set<string>)
    ensures Step(s, Event(at, OpPurgeAnswers(answers)))
         == s.(ledger := s.ledger.(receipts :=
                  SpendLedger.EraseAnswers(s.ledger.receipts, SpendLedger.AnswerIn(answers))))
  {
  }

  /** A purge with nothing due changes nothing, so it need not take the writer. */
  lemma NothingDue(s: Store, now: nat)
    requires forall i | 0 <= i < |s.permits| ::
               !(s.permits[i].result.Some? && s.permits[i].attempt.recoveryExpiresAt <= now)
    ensures Registry.PurgeResults(s, now) == s
  {
    var deadlines := Registry.ResultDeadlines(s.permits);
    assert forall i :: !Expiry.Due(deadlines, now, i);
    assert Expiry.DueRows(deadlines, now) == {};
    assert Expiry.Batch(deadlines, now, Registry.EXPIRY_BATCH_SIZE) == {};
    assert Registry.WithoutResults(s.permits, {}) == s.permits;
  }

  /** Every database object satisfies what every run keeps. */
  lemma AlwaysGood(d: Database)
    requires d.Valid()
    ensures StoreInv(d.View())
  {
    hide Run, StoreInv;
    Reachable(d.history);
  }

  lemma ReattachesToExisting(l: Ledger, r: Reservation, handoff: Option<string>)
    ensures var result := SpendLedger.Reserve(l, r, None, handoff);
            result.Ok? && !result.value.0 ==> Newest(l.receipts, SpendLedger.HasReference(r.reference)).Some?
  {
    hide FindLast;
  }

  /** The trigger fires when an uncertain receipt resolves. */
  lemma Triggered(s: Store, reference: string, i: nat, row: Receipt, used: map<string, nat>)
    requires SpendLedger.ReceiptIndex(s.ledger, reference) == Some(i) && i < |s.ledger.receipts|
    requires row.reservation == s.ledger.receipts[i].reservation && s.ledger.receipts[i].state == Unknown
    ensures var l := Ledger(used, s.ledger.receipts[i := row]);
            Registry.WithLedger(s, reference, l)
            == s.(ledger := l,
                  permits := if row.state == Unknown then s.permits else Registry.Retire(s.permits, reference))
  {
    hide Registry.Retire;
    assert SpendLedger.HasReference(reference)(s.ledger.receipts[i]);
    FindLastUpdated(s.ledger.receipts, i, row, SpendLedger.HasReference(reference));
  }

  lemma Untriggered(s: Store, reference: string)
    requires SpendLedger.StateOf(s.ledger, reference) != Some(Unknown)
    ensures Registry.WithLedger(s, reference, s.ledger) == s
  {
  }

  /** The trigger depends only on states, which marking a receipt does not change. */
  lemma MarkingKeepsTrigger(s: Store, l: Ledger, reference: string, i: nat, row: Receipt)
    requires SpendLedger.ReceiptIndex(l, reference) == Some(i) && i < |l.receipts|
    requires row.reservation == l.receipts[i].reservation && row.state == l.receipts[i].state
    ensures var marked := l.(receipts := l.receipts[i := row]);
            Registry.WithLedger(s, reference, marked) == Registry.WithLedger(s, reference, l).(ledger := marked)
  {
    assert SpendLedger.HasReference(reference)(l.receipts[i]);
    FindLastUpdated(l.receipts, i, row, SpendLedger.HasReference(reference));
  }

  lemma SavingKeepsState(l: Ledger, reference: string, output: Option<string>, retention: nat,
                         deadline: Option<int>, policy: JobPolicy, at: Clock)
    ensures var saved := SpendLedger.SaveAnswer(l, reference, output, retention, deadline, policy, at);
            saved.Ok? ==> SpendLedger.StateOf(saved.value, reference) == SpendLedger.StateOf(l, reference)
  {
    var saved := SpendLedger.SaveAnswer(l, reference, output, retention, deadline, policy, at);
    if saved.Ok? && saved.value != l {
      var i := SpendLedger.ReceiptIndex(l, reference).value;
      FindLastUpdated(l.receipts, i, saved.value.receipts[i], SpendLedger.HasReference(reference));
    }
  }

  /** Settling keeps the place of a receipt. */
  lemma FinishKeepsIndex(l: Ledger, reference: string, state: SpendState, usage: Option<Usage>, output: bool)
    ensures var result := SpendLedger.Finish(l, reference, state, usage, output);
            result.Ok? ==>
              && SpendLedger.ReceiptIndex(l, reference).Some?
              && |result.value.receipts| == |l.receipts|
              && SpendLedger.ReceiptIndex(result.value, reference) == SpendLedger.ReceiptIndex(l, reference)
  {
    var result := SpendLedger.Finish(l, reference, state, usage, output);
    if result.Ok? {
      var i := SpendLedger.ReceiptIndex(l, reference).value;
      FindLastUpdated(l.receipts, i, result.value.receipts[i], SpendLedger.HasReference(reference));
    }
  }
}
