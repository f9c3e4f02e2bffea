/** Round trips between what a transaction records and what a status reads. */
module ReadBack {
  import opened Tables
  import opened Records
  import opened SpendLedger
  import opened LedgerInvariants
  import opened LedgerSteps
  import opened Registry
  import opened RegistryInvariants
  import opened RegistrySteps
  import opened Runs
  import opened RunTheorems
  import opened StatusTheorems

  // ---- Permits ------------------------------------------------------------------

  /** A token finds its own permit, while it is pending. */
  lemma PendingIsOwn(s: Store, i: nat)
    requires StoreInv(s) && i < |s.permits|
    ensures var p := s.permits[i];
            FindLast(s.permits, Pending(p.attempt, p.token)) == if p.consumed then None else Some(i)
  {
    hide LedgerInv;
    var p := s.permits[i];
    forall k | 0 <= k < |s.permits| && Pending(p.attempt, p.token)(s.permits[k])
      ensures k == i
    {
      SameAttempt(s, i, k);
    }
    assert !p.consumed ==> Pending(p.attempt, p.token)(p);
  }

  lemma AcceptsPermitted(s: Store, i: nat, reference: string, maxAttempts: nat, now: nat)
    requires StoreInv(s) && i < |s.permits|
    ensures var p := s.permits[i];
            AcceptIn(s, p.attempt, p.token, reference, maxAttempts, now).Ok?
            <==> StatusOf(s, p, now) == Ok(Permitted) && p.acceptedAttempts < maxAttempts
  {
    PendingIsOwn(s, i);
    hide LedgerInv, RegistryInv, Superseded, FindLast, CurrentRevision, ProjectReceipt;
  }

  /** Acceptance succeeds exactly for a permit whose status is Permitted, within the allowance. */
  lemma PermittedIsAcceptance(events: seq<Event>, i: nat, reference: string, maxAttempts: nat, now: nat)
    requires i < |Run(EMPTY_STORE, events).permits|
    ensures var s := Run(EMPTY_STORE, events);
            var p := s.permits[i];
            AcceptIn(s, p.attempt, p.token, reference, maxAttempts, now).Ok?
            <==> StatusAt(s, p.attempt.invocation, p.attempt.ordinal, now) == Ok(Permitted)
                 && p.acceptedAttempts < maxAttempts
  {
    hide Run, StoreInv, AcceptIn, StatusAt, StatusOf;
    Reachable(events);
    PermitAt(Run(EMPTY_STORE, events), i, now);
    AcceptsPermitted(Run(EMPTY_STORE, events), i, reference, maxAttempts, now);
  }

  lemma NewestIsNotSuperseded(s: Store, i: nat)
    requires StoreInv(s) && |s.permits| == i + 1
    ensures !Superseded(s.permits, s.permits[i].attempt)
  {
    hide LedgerInv;
    var a := s.permits[i].attempt;
    forall k | 0 <= k < |s.permits|
      ensures !After(a.invocation, a.ordinal)(s.permits[k])
    {
      assert k < i && s.permits[k].attempt.invocation == a.invocation ==>
               Supersedes(s.ledger, s.permits[k], s.permits[i]);
    }
  }

  lemma IssuesPermitted(s: Store, a: Attempt, maxAttempts: nat, at: Clock, token: string)
    requires StoreInv(s) && IssueIn(s, a, maxAttempts, at, token).Ok?
    ensures var s' := IssueIn(s, a, maxAttempts, at, token).value;
            StatusAt(s', a.invocation, a.ordinal, at.second) == Ok(Permitted)
  {
    assert at.second < a.expiresAt;
    IssueShape(s, a, maxAttempts, at, token);
    IssueKeeps(s, a, maxAttempts, at, token);
    hide LedgerInv, RegistryInv, IssueIn, Superseded, StatusAt, StoreAdvances;
    var s' := IssueIn(s, a, maxAttempts, at, token).value;
    PermitAt(s', |s.permits|, at.second);
    NewestIsNotSuperseded(s', |s.permits|);
  }

  /** A new permit is Permitted at the time it was issued. */
  lemma IssuedIsPermitted(events: seq<Event>, a: Attempt, maxAttempts: nat, at: Clock, token: string)
    requires IssueIn(Run(EMPTY_STORE, events), a, maxAttempts, at, token).Ok?
    ensures var s' := IssueIn(Run(EMPTY_STORE, events), a, maxAttempts, at, token).value;
            StatusAt(s', a.invocation, a.ordinal, at.second) == Ok(Permitted)
  {
    hide Run, StoreInv, IssueIn, StatusAt;
    Reachable(events);
    IssuesPermitted(Run(EMPTY_STORE, events), a, maxAttempts, at, token);
  }

  // ---- Answers ------------------------------------------------------------------

  /** After a recorded answer the ledger row holds the answer's usage and charge. */
  lemma SettledAsTold(s: Store, a: Attempt, answer: string, usage: Usage, budget: Option<BudgetAdmission>, at: Clock)
    requires StoreInv(s) && Complete(s, a, Answered(answer, usage, true), Retain, budget, at).Ok?
    ensures HandedOut(s, a).Some?
    ensures var l := Complete(s, a, Answered(answer, usage, true), Retain, budget, at).value.ledger;
            var i := ReceiptIndex(l, HandedOut(s, a).value.stored.reference);
            && i.Some? && l.receipts[i.value].usage == Some(usage)
            && l.receipts[i.value].state == if Measured(usage) then Settled else Unknown
  {
    hide LedgerInv, RegistryInv, ReceiptIndex, Finish, Complete, HandedOut, Measured;
    AnswerSettles(s, a, answer, usage, true, Retain, budget, at);
    SettlesRow(s.ledger, HandedOut(s, a).value.stored.reference, if Measured(usage) then Settled else Unknown, usage);
  }

  /** The permit row of a retained answer. */
  function AnswerRow(p: Permit, reference: string, answer: string, usage: Usage): DispatchResult {
    DispatchResult(
      DispatchReceipt(p.attempt, StoredReceipt(Succeeded, reference), usage,
                      if Measured(usage) then Settled else Unknown),
      false, Some(answer))
  }

  lemma ReadsAnswerRow(s: Store, p: Permit, reference: string, answer: string, usage: Usage, time: nat)
    requires p.consumed && p.finished == Recoverable && p.result == Some(AnswerRow(p, reference, answer, usage))
    requires time < p.attempt.recoveryExpiresAt
    requires var i := ReceiptIndex(s.ledger, reference);
             && i.Some? && s.ledger.receipts[i.value].usage == Some(usage)
             && s.ledger.receipts[i.value].state == if Measured(usage) then Settled else Unknown
    ensures StatusOf(s, p, time) == Ok(Completed(AnswerRow(p, reference, answer, usage)))
  {
    hide ReceiptIndex, FindLast, Measured;
  }

  lemma RecordsAnswerRow(s: Store, a: Attempt, answer: string, usage: Usage, budget: Option<BudgetAdmission>,
                         at: Clock)
    requires StoreInv(s) && Complete(s, a, Answered(answer, usage, true), Retain, budget, at).Ok?
    requires at.first < a.recoveryExpiresAt
    ensures var s' := Complete(s, a, Answered(answer, usage, true), Retain, budget, at).value;
            && StoreInv(s') && HandedOut(s, a).Some?
            && exists i :: 0 <= i < |s'.permits| && s'.permits[i].attempt == a
                 && s'.permits[i].consumed && s'.permits[i].finished == Recoverable
                 && s'.permits[i].result
                    == Some(AnswerRow(s'.permits[i], HandedOut(s, a).value.stored.reference, answer, usage))
  {
    var e := Answered(answer, usage, true);
    hide Run, LedgerInv, RegistryInv, FindLast, Complete, WithLedger, StoreAdvances, Keeps;
    CompletionShape(s, a, e, Retain, budget, at);
    CompleteKeeps(s, a, e, Retain, budget, at);
    HandedOutInFlight(s, a);
    var i := FindLast(s.permits, InFlightFor(a)).value;
    var s' := Complete(s, a, e, Retain, budget, at).value;
    assert s'.permits[i] == FinishedPermit(s.permits[i], Outcome(HandedOut(s, a).value, e).0, Retain, at.first);
  }

  /** A recorded answer is read back, with its usage and its charge, until its recovery deadline. */
  lemma AnswerIsReadBack(events: seq<Event>, a: Attempt, answer: string, usage: Usage,
                         budget: Option<BudgetAdmission>, at: Clock, time: nat)
    requires Complete(Run(EMPTY_STORE, events), a, Answered(answer, usage, true), Retain, budget, at).Ok?
    requires at.first < a.recoveryExpiresAt && time < a.recoveryExpiresAt
    ensures var s := Run(EMPTY_STORE, events);
            var s' := Complete(s, a, Answered(answer, usage, true), Retain, budget, at).value;
            && HandedOut(s, a).Some?
            && StatusAt(s', a.invocation, a.ordinal, time)
               == Ok(Completed(DispatchResult(
                    DispatchReceipt(a, StoredReceipt(Succeeded, HandedOut(s, a).value.stored.reference), usage,
                                    if Measured(usage) then Settled else Unknown),
                    false, Some(answer))))
  {
    hide Run, StoreInv, Complete, StatusAt, StatusOf, HandedOut;
    var s := Run(EMPTY_STORE, events);
    Reachable(events);
    SettledAsTold(s, a, answer, usage, budget, at);
    RecordsAnswerRow(s, a, answer, usage, budget, at);
    var s' := Complete(s, a, Answered(answer, usage, true), Retain, budget, at).value;
    var reference := HandedOut(s, a).value.stored.reference;
    var i :| 0 <= i < |s'.permits| && s'.permits[i].attempt == a
      && s'.permits[i].consumed && s'.permits[i].finished == Recoverable
      && s'.permits[i].result == Some(AnswerRow(s'.permits[i], reference, answer, usage));
    PermitAt(s', i, time);
    ReadsAnswerRow(s', s'.permits[i], reference, answer, usage, time);
  }

  // ---- Completions at or after the recovery deadline ----------------------------

  /** A completion retained at or after its recovery deadline keeps no result: it reads as Expired
      from the deadline on, and a clock that has gone back before it cannot read it at all. */
  lemma LateCompletionIsUnreadable(events: seq<Event>, a: Attempt, e: Execution, budget: Option<BudgetAdmission>,
                                   at: Clock, time: nat)
    requires Complete(Run(EMPTY_STORE, events), a, e, Retain, budget, at).Ok?
    requires a.recoveryExpiresAt <= at.first
    ensures var s' := Complete(Run(EMPTY_STORE, events), a, e, Retain, budget, at).value;
            StatusAt(s', a.invocation, a.ordinal, time)
            == if time < a.recoveryExpiresAt then Err(StateUnavailable) else Ok(Expired)
  {
    hide Run, LedgerInv, RegistryInv, FindLast, Complete, WithLedger, StoreAdvances, Keeps, Outcome, StatusAt;
    var s := Run(EMPTY_STORE, events);
    Reachable(events);
    CompletionShape(s, a, e, Retain, budget, at);
    CompleteKeeps(s, a, e, Retain, budget, at);
    HandedOutInFlight(s, a);
    var i := FindLast(s.permits, InFlightFor(a)).value;
    var s' := Complete(s, a, e, Retain, budget, at).value;
    PermitAt(s', i, time);
  }

  const LATE_ATTEMPT := Attempt(InvocationKey("tenant", "incarnation", None, "invocation"), 1, 1, 0, 10, 5, 1, "")
  const LATE_HANDOFF := Handoff(Reservation("reference", "account", "invocation", "binding", None), "input")

  function At(time: nat): Clock {
    Clock(time, time, time)
  }

  /** Publish, issue and consume; the dispatch then fails at its recovery deadline. */
  function LateRun(): seq<Event> {
    [Event(At(0), OpPublish(LATE_ATTEMPT.Grant(), 1)),
     Event(At(1), OpIssue(LATE_ATTEMPT, 1, "token")),
     Event(At(2), OpConsume(LATE_ATTEMPT, "token", LATE_HANDOFF, 1))]
  }

  /** The store `LateRun` reaches. */
  function LateStore(): Store {
    Store(Ledger(map["account" := 1],
                 [Receipt(LATE_HANDOFF.reservation, Unknown, None, false, Some("input"), None, false, None, 0, None)]),
          [Permit(LATE_ATTEMPT, "token", 1, true, InFlight, None, Some(StoredReceipt(ProviderFailed, "reference")),
                  None)],
          map[LATE_ATTEMPT.Grant() := 1], map[])
  }

  lemma LateRunReaches()
    ensures Run(EMPTY_STORE, LateRun()) == LateStore()
  {
    hide Step;
    var e1, e2, e3 := LateRun()[0], LateRun()[1], LateRun()[2];
    assert LateRun() == ([] + [e1] + [e2]) + [e3];
    RunAppend(EMPTY_STORE, [], e1);
    RunAppend(EMPTY_STORE, [] + [e1], e2);
    RunAppend(EMPTY_STORE, [] + [e1] + [e2], e3);
    LateSteps();
  }

  function LatePermitted(): Store {
    EMPTY_STORE.(revisions := map[LATE_ATTEMPT.Grant() := 1],
                 permits := [Permit(LATE_ATTEMPT, "token", 0, false, InFlight, None, None, None)])
  }

  lemma LateSteps()
    ensures var published := EMPTY_STORE.(revisions := map[LATE_ATTEMPT.Grant() := 1]);
            && Step(EMPTY_STORE, LateRun()[0]) == published
            && Step(published, LateRun()[1]) == LatePermitted()
            && Step(LatePermitted(), LateRun()[2]) == LateStore()
  {
    hide Consume, FindLast;
    LateConsume(LatePermitted());
  }

  lemma LateConsume(s: Store)
    requires s == LatePermitted()
    ensures Consume(s, LATE_ATTEMPT, "token", LATE_HANDOFF, 1, 2) == Ok(LateStore())
  {
    assert Pending(LATE_ATTEMPT, "token")(s.permits[0]);
    assert FindLast(s.permits, Pending(LATE_ATTEMPT, "token")) == Some(0);
    assert !Superseded(s.permits, LATE_ATTEMPT);
    assert s.permits[0 := LateStore().permits[0]] == LateStore().permits;
    assert AcceptIn(s, LATE_ATTEMPT, "token", "reference", 1, 2) == Ok(s.(permits := LateStore().permits));
    LateReserve();
  }

  lemma LateReserve()
    ensures ReserveHandoff(EMPTY_STORE.ledger, LATE_HANDOFF) == Ok((true, LateStore().ledger))
  {
    var l, row := EMPTY_STORE.ledger, LateStore().ledger.receipts[0];
    assert NextReceipt(l, LATE_HANDOFF.reservation, None, Some("input")) == Ok(row);
    assert Charge(l, row) == Ok(LateStore().ledger) by {
      assert l.used["account" := 1] == LateStore().ledger.used;
      assert l.receipts + [row] == LateStore().ledger.receipts;
    }
    assert "input"[0] == 'i';
  }

  /** A run in which a status cannot be read: complete at time 5, read at time 4. */
  lemma ClockBackHidesStatus()
    ensures var e := Event(At(5), OpComplete(LATE_ATTEMPT, Refused(true), Retain, None));
            var s := Run(EMPTY_STORE, LateRun() + [e]);
            && StatusAt(s, LATE_ATTEMPT.invocation, 1, 4) == Err(StateUnavailable)
            && StatusAt(s, LATE_ATTEMPT.invocation, 1, 5) == Ok(Expired)
  {
    hide Run, Complete, StatusAt, LateRun, LateStore;
    LateRunReaches();
    LateCompletes();
    RunAppend(EMPTY_STORE, LateRun(), Event(At(5), OpComplete(LATE_ATTEMPT, Refused(true), Retain, None)));
    LateCompletionIsUnreadable(LateRun(), LATE_ATTEMPT, Refused(true), None, At(5), 4);
    LateCompletionIsUnreadable(LateRun(), LATE_ATTEMPT, Refused(true), None, At(5), 5);
  }

  lemma LateCompletes()
    ensures Complete(LateStore(), LATE_ATTEMPT, Refused(true), Retain, None, At(5)).Ok?
  {
    var s := LateStore();
    assert InFlightFor(LATE_ATTEMPT)(s.permits[0]);
    assert FindLast(s.permits, InFlightFor(LATE_ATTEMPT)) == Some(0);
    assert HasReference("reference")(s.ledger.receipts[0]);
    assert ReceiptIndex(s.ledger, "reference") == Some(0);
  }
}
