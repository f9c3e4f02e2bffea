/** Every way a dispatch can end is read back as it ended; before that it reads as dispatched with
    the ledger's own row. */
module StatusReadBack {
  import opened Tables
  import opened Records
  import opened SpendLedger
  import opened LedgerInvariants
  import opened LedgerSteps
  import opened Registry
  import opened RegistryInvariants
  import opened RegistrySteps
  import opened Runs
  import opened StatusTheorems
  import opened SettleTheorems

  const UNMETERED := Usage(false, NoCost, "")

  /** What a dispatch amounts to once it has ended. */
  datatype Ending = Ending(status: DispatchStatus, usage: Usage, state: SpendState, answer: Option<string>)

  /** No credential and a refusal before sending cost nothing; a refusal after sending and an answer
      without a measurement stay uncertain; a measured answer is settled, accepted or not. */
  function EndingOf(e: Execution): Ending {
    match e
    case NoCredential => Ending(CredentialUnavailable, UNMETERED, Released, None)
    case Refused(sent) => Ending(ProviderFailed, UNMETERED, if sent then Unknown else Released, None)
    case Answered(answer, usage, accepted) =>
      Ending(if accepted then Succeeded else ProviderFailed, usage,
             if usage.metered || usage.cost != NoCost then Settled else Unknown,
             if accepted then Some(answer) else None)
  }

  /** The part of a usage kept without its answer: no provider text, no invalid cost. */
  function WithoutText(usage: Usage): Usage {
    Usage(usage.metered, if usage.cost == ValidCost then ValidCost else NoCost, "")
  }

  // ---- The ledger row of a completion -------------------------------------------

  /** The settlement inside a completion. */
  lemma CompletionSettles(s: Store, a: Attempt, e: Execution, mode: AnswerRecovery,
                          budget: Option<BudgetAdmission>, at: Clock)
    requires StoreInv(s) && Complete(s, a, e, mode, budget, at).Ok?
    ensures HandedOut(s, a).Some?
    ensures var usage := if !e.Answered? then None
                         else Some(if mode == Off then WithoutText(e.usage) else e.usage);
            Finish(s.ledger, HandedOut(s, a).value.stored.reference, EndingOf(e).state, usage, e.Answered?)
            == Ok(Complete(s, a, e, mode, budget, at).value.ledger)
  {
    hide LedgerInv, RegistryInv, FindLast, WithLedger, FinishedPermit, SettledBudget, Finish;
  }

  lemma CompletionRow(s: Store, a: Attempt, e: Execution, mode: AnswerRecovery,
                      budget: Option<BudgetAdmission>, at: Clock)
    requires StoreInv(s) && Complete(s, a, e, mode, budget, at).Ok?
    ensures HandedOut(s, a).Some?
    ensures var l := Complete(s, a, e, mode, budget, at).value.ledger;
            var i := ReceiptIndex(l, HandedOut(s, a).value.stored.reference);
            && i.Some? && l.receipts[i.value].state == EndingOf(e).state
            && l.receipts[i.value].usage
               == if !e.Answered? then None else Some(if mode == Off then WithoutText(e.usage) else e.usage)
  {
    CompletionSettles(s, a, e, mode, budget, at);
    var reference := HandedOut(s, a).value.stored.reference;
    var l := Complete(s, a, e, mode, budget, at).value.ledger;
    var usage := if !e.Answered? then None else Some(if mode == Off then WithoutText(e.usage) else e.usage);
    hide Complete, HandedOut, EndingOf, LedgerInv, RegistryInv;
    SettledRow(s.ledger, reference, EndingOf(e).state, usage, e.Answered?);
  }

  lemma SettledRow(l: Ledger, reference: string, state: SpendState, usage: Option<Usage>, output: bool)
    requires LedgerInv(l) && Finish(l, reference, state, usage, output).Ok?
    ensures var l' := Finish(l, reference, state, usage, output).value;
            var i := ReceiptIndex(l', reference);
            i.Some? && l'.receipts[i.value].state == state && l'.receipts[i.value].usage == usage
  {
    var found := ReceiptIndex(l, reference);
    assert HasReference(reference)(l.receipts[found.value]);
    SettledExactlyWhen(l, reference, state, usage, output, found.value);
    FinishKeeps(l, reference, state, usage, output);
    var l' := Finish(l, reference, state, usage, output).value;
    assert Names(l'.receipts, reference, found.value);
    NamedIsFound(l', reference, found.value);
  }

  // ---- The permit row of a completion -------------------------------------------

  /** The result a retained completion stores. */
  function ResultOf(a: Attempt, reference: string, e: Execution): DispatchResult {
    var end := EndingOf(e);
    DispatchResult(DispatchReceipt(a, StoredReceipt(end.status, reference), end.usage, end.state),
                   end.answer.None?, end.answer)
  }

  lemma OutcomeIsEnding(receipt: DispatchReceipt, e: Execution)
    requires receipt.usage == UNMETERED && receipt.spendState == Unknown && receipt.stored.status == ProviderFailed
    ensures Outcome(receipt, e).0 == ResultOf(receipt.attempt, receipt.stored.reference, e)
  {
  }

  lemma CompletionPermit(s: Store, a: Attempt, e: Execution, mode: AnswerRecovery,
                         budget: Option<BudgetAdmission>, at: Clock) returns (i: nat)
    requires StoreInv(s) && Complete(s, a, e, mode, budget, at).Ok?
    ensures var s' := Complete(s, a, e, mode, budget, at).value;
            && StoreInv(s') && HandedOut(s, a).Some?
            && i < |s'.permits| && s'.permits[i].attempt == a && s'.permits[i].consumed
            && s'.permits[i].receipt
               == Some(StoredReceipt(EndingOf(e).status, HandedOut(s, a).value.stored.reference))
            && s'.permits[i].finished == (if mode == Off then WithoutAnswer else Recoverable)
            && s'.permits[i].result
               == if mode == Retain && at.first < a.recoveryExpiresAt
                  then Some(ResultOf(a, HandedOut(s, a).value.stored.reference, e)) else None
  {
    hide LedgerInv, RegistryInv, FindLast, Complete, WithLedger, StoreAdvances, Keeps, Outcome;
    CompletionShape(s, a, e, mode, budget, at);
    CompleteKeeps(s, a, e, mode, budget, at);
    HandedOutInFlight(s, a);
    i := FindLast(s.permits, InFlightFor(a)).value;
    OutcomeIsEnding(HandedOut(s, a).value, e);
  }

  // ---- Reading ------------------------------------------------------------------

  /** The receipt a status shows: the stored status and reference with the ledger's usage and state. */
  lemma ProjectsRow(s: Store, a: Attempt, r: StoredReceipt)
    requires ReceiptIndex(s.ledger, r.reference).Some?
    ensures var row := s.ledger.receipts[ReceiptIndex(s.ledger, r.reference).value];
            ProjectReceipt(s, a, r)
            == Ok(DispatchReceipt(a, r, if row.usage.Some? then row.usage.value else UNMETERED, row.state))
  {
  }

  lemma RetainedReads(s: Store, p: Permit, a: Attempt, reference: string, e: Execution, time: nat)
    requires p.attempt == a && p.consumed && p.finished == Recoverable
    requires time < a.recoveryExpiresAt ==> p.result == Some(ResultOf(a, reference, e))
    requires var i := ReceiptIndex(s.ledger, reference);
             && i.Some? && s.ledger.receipts[i.value].state == EndingOf(e).state
             && s.ledger.receipts[i.value].usage == if e.Answered? then Some(e.usage) else None
    ensures StatusOf(s, p, time)
         == Ok(if a.recoveryExpiresAt <= time then Expired
               else if EndingOf(e).answer.Some? then Completed(ResultOf(a, reference, e))
               else Failed(ResultOf(a, reference, e)))
  {
    hide FindLast;
  }

  lemma UnretainedReads(s: Store, p: Permit, a: Attempt, reference: string, e: Execution, time: nat)
    requires p.attempt == a && p.consumed && p.finished == WithoutAnswer
    requires p.receipt == Some(StoredReceipt(EndingOf(e).status, reference))
    requires var i := ReceiptIndex(s.ledger, reference);
             && i.Some? && s.ledger.receipts[i.value].state == EndingOf(e).state
             && s.ledger.receipts[i.value].usage == if e.Answered? then Some(WithoutText(e.usage)) else None
    ensures StatusOf(s, p, time)
         == Ok(FinishedWithoutAnswer(DispatchReceipt(a, StoredReceipt(EndingOf(e).status, reference),
                                                     WithoutText(EndingOf(e).usage), EndingOf(e).state)))
  {
    hide FindLast;
  }

  /** However a dispatch ended, its status says so. With answers retained it is Completed with its
      answer or Failed without one until the recovery deadline, and Expired from then on; with answers
      off it is finished without answer. Stored status, reference, usage and charge are its own. */
  lemma CompletionIsReadBack(events: seq<Event>, a: Attempt, e: Execution, mode: AnswerRecovery,
                             budget: Option<BudgetAdmission>, at: Clock, time: nat)
    requires Complete(Run(EMPTY_STORE, events), a, e, mode, budget, at).Ok?
    requires mode == Retain ==> at.first < a.recoveryExpiresAt
    ensures var s := Run(EMPTY_STORE, events);
            var s' := Complete(s, a, e, mode, budget, at).value;
            && HandedOut(s, a).Some?
            && var reference := HandedOut(s, a).value.stored.reference;
               var end := EndingOf(e);
               StatusAt(s', a.invocation, a.ordinal, time)
               == Ok(if mode == Off then
                       FinishedWithoutAnswer(DispatchReceipt(a, StoredReceipt(end.status, reference),
                                                             WithoutText(end.usage), end.state))
                     else if a.recoveryExpiresAt <= time then Expired
                     else if end.answer.Some? then Completed(ResultOf(a, reference, e))
                     else Failed(ResultOf(a, reference, e)))
  {
    hide Run, LedgerInv, RegistryInv, Complete, StatusAt, StatusOf, HandedOut, EndingOf, ResultOf;
    var s := Run(EMPTY_STORE, events);
    Reachable(events);
    CompletionRow(s, a, e, mode, budget, at);
    var i := CompletionPermit(s, a, e, mode, budget, at);
    var s' := Complete(s, a, e, mode, budget, at).value;
    var reference := HandedOut(s, a).value.stored.reference;
    PermitAt(s', i, time);
    if mode == Off {
      UnretainedReads(s', s'.permits[i], a, reference, e, time);
    } else {
      RetainedReads(s', s'.permits[i], a, reference, e, time);
    }
  }

  // ---- Before the end -----------------------------------------------------------

  /** A dispatch that has not ended reads as Dispatched, with the ledger's own row. */
  lemma InFlightIsDispatched(events: seq<Event>, i: nat, k: nat, time: nat)
    requires var s := Run(EMPTY_STORE, events);
             && i < |s.permits| && s.permits[i].consumed && s.permits[i].finished == InFlight
             && s.permits[i].receipt.Some?
             && Names(s.ledger.receipts, s.permits[i].receipt.value.reference, k)
    ensures var s := Run(EMPTY_STORE, events);
            var a, row := s.permits[i].attempt, s.ledger.receipts[k];
            StatusAt(s, a.invocation, a.ordinal, time)
            == Ok(Dispatched(DispatchReceipt(a, StoredReceipt(ProviderFailed, row.reservation.reference),
                                             if row.usage.Some? then row.usage.value else UNMETERED, row.state)))
  {
    var s := Run(EMPTY_STORE, events);
    Reachable(events);
    PermitHolds(s, i);
    NamedIsFound(s.ledger, s.permits[i].receipt.value.reference, k);
    PermitAt(s, i, time);
    hide Run, LedgerInv, RegistryInv, StatusAt, FindLast, ReceiptIndex;
    ProjectsRow(s, s.permits[i].attempt, s.permits[i].receipt.value);
  }

  /** An attempt just consumed is Dispatched for its handoff's reference, uncharged so far. */
  lemma ConsumedIsDispatched(events: seq<Event>, a: Attempt, token: string, handoff: Handoff, maxAttempts: nat,
                             now: nat, time: nat)
    requires Consume(Run(EMPTY_STORE, events), a, token, handoff, maxAttempts, now).Ok?
    ensures var s' := Consume(Run(EMPTY_STORE, events), a, token, handoff, maxAttempts, now).value;
            StatusAt(s', a.invocation, a.ordinal, time)
            == Ok(Dispatched(DispatchReceipt(a, StoredReceipt(ProviderFailed, handoff.reservation.reference),
                                             UNMETERED, Unknown)))
  {
    hide Run, LedgerInv, RegistryInv, StatusAt, FindLast, ReceiptIndex, Consume, StoreAdvances, Reserve, AcceptIn;
    var s := Run(EMPTY_STORE, events);
    Reachable(events);
    ConsumeKeeps(s, a, token, handoff, maxAttempts, now);
    ConsumeShape(s, a, token, handoff, maxAttempts, now);
    var s' := Consume(s, a, token, handoff, maxAttempts, now).value;
    var i := AcceptedPermit(s, a, token, handoff.reservation.reference, maxAttempts, now);
    var k := ReservedRow(s.ledger, handoff.reservation, None, Some(handoff.inputIdentity));
    IndexOfRow(s'.ledger, k);
    PermitAt(s', i, time);
    ProjectsRow(s', a, s'.permits[i].receipt.value);
  }

  lemma IndexOfRow(l: Ledger, k: nat)
    requires LedgerInv(l) && k < |l.receipts|
    ensures ReceiptIndex(l, l.receipts[k].reservation.reference) == Some(k)
  {
    IndexByReference(l, k);
  }

  lemma AcceptedPermit(s: Store, a: Attempt, token: string, reference: string, maxAttempts: nat, now: nat)
    returns (i: nat)
    requires StoreInv(s) && AcceptIn(s, a, token, reference, maxAttempts, now).Ok?
    ensures var permits := AcceptIn(s, a, token, reference, maxAttempts, now).value.permits;
            && i < |permits| && permits[i].attempt == a && permits[i].consumed && permits[i].finished == InFlight
            && permits[i].receipt == Some(StoredReceipt(ProviderFailed, reference))
  {
    i := FindLast(s.permits, Pending(a, token)).value;
    assert Pending(a, token)(s.permits[i]);
    PermitHolds(s, i);
  }

  lemma ReservedRow(l: Ledger, r: Reservation, limit: Option<u32>, handoff: Option<string>) returns (k: nat)
    requires Reserve(l, r, limit, handoff).Ok? && Reserve(l, r, limit, handoff).value.0
    ensures var rows := Reserve(l, r, limit, handoff).value.1.receipts;
            k < |rows| && rows[k].reservation == r && rows[k].state == Unknown && rows[k].usage.None?
  {
    hide FindLast;
    k := |l.receipts|;
  }

  /** An attempt is not issued exactly when no permit has its identity. */
  lemma NotIssuedExactlyWhen(events: seq<Event>, invocation: InvocationKey, ordinal: nat, time: nat)
    ensures var s := Run(EMPTY_STORE, events);
            StatusAt(s, invocation, ordinal, time) == Ok(NotIssued)
            <==> forall i | 0 <= i < |s.permits| ::
                   !(s.permits[i].attempt.invocation == invocation && s.permits[i].attempt.ordinal == ordinal)
  {
    hide Run, StoreInv, StatusAt;
    Reachable(events);
    NoPermitNoStatus(Run(EMPTY_STORE, events), invocation, ordinal, time);
  }

  lemma NoPermitNoStatus(s: Store, invocation: InvocationKey, ordinal: nat, time: nat)
    requires StoreInv(s)
    ensures StatusAt(s, invocation, ordinal, time) == Ok(NotIssued)
       <==> forall i | 0 <= i < |s.permits| ::
              !(s.permits[i].attempt.invocation == invocation && s.permits[i].attempt.ordinal == ordinal)
  {
    var found := FindLast(s.permits, AtOrdinal(invocation, ordinal));
    if found.Some? {
      assert AtOrdinal(invocation, ordinal)(s.permits[found.value]);
      PermitAt(s, found.value, time);
    } else {
      assert forall i | 0 <= i < |s.permits| :: !AtOrdinal(invocation, ordinal)(s.permits[i]);
    }
    hide LedgerInv, RegistryInv, FindLast, Superseded, ProjectReceipt;
  }
}
