/** The expiry loop among other writers: every batch commits on its own, so any transaction can
    fall between two batches. */
module SweepTheorems {
  import opened Tables
  import opened Records
  import opened SpendLedger
  import opened LedgerInvariants
  import opened Registry
  import opened RegistryInvariants
  import opened RegistrySteps
  import opened Runs
  import opened AnswerSweeps
  import Expiry

  // ---- What a writer can do to the expired answers ------------------------------

  /** An answer is kept, erased, or given a deadline past the cutoff. */
  predicate RowAhead(a: Receipt, b: Receipt, cutoff: int) {
    b.recovery.None? || b.recovery == a.recovery || b.recovery.value.expiresAt > cutoff
  }

  /** Every row but possibly one. */
  ghost predicate RowsAheadBut(rows: seq<Receipt>, rows': seq<Receipt>, cutoff: int, but: int) {
    && |rows| <= |rows'|
    && (forall i | 0 <= i < |rows| && i != but :: RowAhead(rows[i], rows'[i], cutoff))
    && (forall i | |rows| <= i < |rows'| :: rows'[i].recovery.None?)
  }

  ghost predicate RowsAhead(rows: seq<Receipt>, rows': seq<Receipt>, cutoff: int) {
    RowsAheadBut(rows, rows', cutoff, -1)
  }

  /** A writer that sets no deadline, or sets it at a sample not before the cutoff with an answer
      that is not born expired at it. Any other writer is late. */
  predicate Ahead(e: Event, cutoff: int) {
    match e.op
    case OpReconcile(_, _, _, _, retention, _) => cutoff <= e.at.first && (retention > 0 || cutoff < e.at.first)
    case OpFinishJob(_, _, _, _, _, retention, _, _) => cutoff <= e.at.first && (retention > 0 || cutoff < e.at.first)
    case OpConstrain(_, _) => cutoff <= e.at.first
    case _ => true
  }

  lemma ReserveAhead(l: Ledger, r: Reservation, limit: Option<u32>, handoff: Option<string>, cutoff: int)
    ensures var result := Reserve(l, r, limit, handoff);
            result.Ok? ==> RowsAhead(l.receipts, result.value.1.receipts, cutoff)
  {
    hide FindLast;
  }

  lemma FinishAhead(l: Ledger, reference: string, state: SpendState, usage: Option<Usage>, output: bool, cutoff: int)
    ensures var result := Finish(l, reference, state, usage, output);
            result.Ok? ==>
              && |result.value.receipts| == |l.receipts|
              && forall i | 0 <= i < |l.receipts| :: result.value.receipts[i].recovery == l.receipts[i].recovery
  {
    hide FindLast;
  }

  lemma FinishWithAnswerAhead(l: Ledger, reference: string, state: SpendState, usage: Option<Usage>,
                              output: Option<string>, evidence: bool, retention: nat, deadline: Option<int>,
                              policy: JobPolicy, at: Clock, cutoff: int) returns (but: int)
    ensures cutoff <= at.first && (retention > 0 || cutoff < at.first) ==> but == -1
    ensures var result := FinishWithAnswer(l, reference, state, usage, output, evidence, retention, deadline,
                                           policy, at);
            result.Ok? ==> RowsAheadBut(l.receipts, result.value.receipts, cutoff, but)
  {
    hide FindLast, Finish;
    var saved := SaveAnswer(l, reference, output, retention, deadline, policy, at);
    if saved.Ok? {
      FinishAhead(saved.value, reference, state, usage, evidence || output.Some?, cutoff);
    }
    var found := ReceiptIndex(l, reference);
    but := if (cutoff <= at.first && (retention > 0 || cutoff < at.first)) || found.None? then -1 else found.value;
  }

  lemma ConstrainAhead(l: Ledger, reference: string, policy: JobPolicy, now: int, cutoff: int) returns (but: int)
    ensures cutoff <= now ==> but == -1
    ensures var result := ConstrainAnswer(l, reference, policy, now);
            result.Ok? ==> RowsAheadBut(l.receipts, result.value.receipts, cutoff, but)
  {
    hide FindLast;
    var found := ReceiptIndex(l, reference);
    but := if cutoff <= now || found.None? then -1 else found.value;
  }

  lemma LedgerStepAhead(s: Store, e: Event, cutoff: int) returns (but: int)
    requires !(e.op.OpConsume? || e.op.OpAcceptJob? || e.op.OpComplete?)
    ensures Ahead(e, cutoff) ==> but == -1
    ensures RowsAheadBut(s.ledger.receipts, Step(s, e).ledger.receipts, cutoff, but)
  {
    hide FindLast, Reserve, Finish, FinishWithAnswer, ConstrainAnswer, ExpiryBatch, StateOf, Retire, IssueIn, Admit;
    hide PurgeResults;
    but := -1;
    match e.op
    case OpReserve(r, limit) => ReserveAhead(s.ledger, r, limit, None, cutoff);
    case OpRelease(reference) => FinishAhead(s.ledger, reference, Released, None, false, cutoff);
    case OpReconcile(reference, state, usage, output, retention, policy) =>
      but := FinishWithAnswerAhead(s.ledger, reference, state, usage, output, false, retention, None, policy,
                                   e.at, cutoff);
    case OpFinishJob(reference, state, usage, output, evidence, retention, deadline, policy) =>
      but := FinishWithAnswerAhead(s.ledger, reference, state, usage, output, evidence, retention, deadline, policy,
                                   e.at, cutoff);
    case OpConstrain(reference, policy) => but := ConstrainAhead(s.ledger, reference, policy, e.at.first, cutoff);
    case OpIssue(a, maxAttempts, token) => IssueLeavesLedger(s, a, maxAttempts, e.at, token);
    case OpAdmit(a, key, policy) => AdmitLeavesLedger(s, a, key, policy, e.at.first);
    case OpPurgeResults => PurgeLeavesLedger(s, e.at.first);
    case _ =>
  }

  lemma IssueLeavesLedger(s: Store, a: Attempt, maxAttempts: nat, at: Clock, token: string)
    ensures var result := IssueIn(s, a, maxAttempts, at, token); result.Ok? ==> result.value.ledger == s.ledger
  {
  }

  lemma AdmitLeavesLedger(s: Store, a: Attempt, key: string, policy: Option<BudgetPolicy>, now: nat)
    ensures var result := Admit(s, a, key, policy, now); result.Ok? ==> result.value.0.ledger == s.ledger
  {
    hide FindLast, StateOf;
  }

  lemma PurgeLeavesLedger(s: Store, now: nat)
    ensures PurgeResults(s, now).ledger == s.ledger
  {
  }

  lemma AcceptJobLeavesLedger(s: Store, a: Attempt, reference: string, maxAttempts: nat, at: Clock, token: string)
    ensures var result := AcceptJobIn(s, a, reference, maxAttempts, at, token);
            result.Ok? ==> result.value.ledger == s.ledger
  {
    hide FindLast, Succeed;
    IssueLeavesLedger(s, a, maxAttempts, at, token);
    hide IssueIn;
  }

  /** No writer adds an expired answer, except that a late one may add one. */
  lemma StepAhead(s: Store, e: Event, cutoff: int) returns (but: int)
    ensures Ahead(e, cutoff) ==> but == -1
    ensures RowsAheadBut(s.ledger.receipts, Step(s, e).ledger.receipts, cutoff, but)
  {
    but := -1;
    hide FindLast, Reserve, Finish, StateOf, Retire, AcceptJobIn, Consume, WithLedger, FinishedPermit, SettledBudget;
    if e.op.OpConsume? {
      var op := e.op;
      ConsumeShape(s, op.a, op.token, op.handoff, op.maxAttempts, e.at.first);
      ReserveAhead(s.ledger, op.handoff.reservation, None, Some(op.handoff.inputIdentity), cutoff);
    } else if e.op.OpAcceptJob? {
      var op := e.op;
      var reserved := Reserve(s.ledger, op.r, Some(op.attemptLimit), None);
      ReserveAhead(s.ledger, op.r, Some(op.attemptLimit), None, cutoff);
      if reserved.Ok? {
        AcceptJobLeavesLedger(s.(ledger := reserved.value.1), op.a, op.r.reference, op.maxAttempts, e.at, op.token);
      }
    } else if e.op.OpComplete? {
      CompleteAhead(s, e.op.a, e.op.execution, e.op.mode, e.op.budget, e.at, cutoff);
    } else {
      but := LedgerStepAhead(s, e, cutoff);
    }
  }

  lemma CompleteAhead(s: Store, a: Attempt, e: Execution, mode: AnswerRecovery, budget: Option<BudgetAdmission>,
                      at: Clock, cutoff: int)
    ensures var result := Complete(s, a, e, mode, budget, at);
            result.Ok? ==> RowsAhead(s.ledger.receipts, result.value.ledger.receipts, cutoff)
  {
    hide FindLast, Finish, StateOf, WithLedger, FinishedPermit, SettledBudget, UsageEvidence;
    var handed := HandedOut(s, a);
    if handed.Some? {
      var (result, outputReceived) := Outcome(handed.value, e);
      FinishAhead(s.ledger, result.receipt.stored.reference, result.receipt.spendState,
                  UsageEvidence(mode, result.receipt.usage, outputReceived), outputReceived, cutoff);
    }
  }

  // ---- Progress under interleaving ----------------------------------------------

  lemma DueGrowsByLate(rows: seq<Receipt>, rows': seq<Receipt>, cutoff: int, but: int)
    requires RowsAheadBut(rows, rows', cutoff, but)
    ensures DueCount(rows', cutoff) <= DueCount(rows, cutoff) + if but == -1 then 0 else 1
  {
    var due := Expiry.DueRows(AnswerDeadlines(rows), cutoff);
    var due' := Expiry.DueRows(AnswerDeadlines(rows'), cutoff);
    forall i | i in due' && i != but
      ensures i in due
    {
      DueIsExpired(rows, cutoff, i);
      DueIsExpired(rows', cutoff, i);
    }
    if but == -1 {
      DueIsExpired(rows', cutoff, -1);
      assert due == due' + (due - due');
    } else {
      assert due' - {but} <= due;
      assert due == (due' - {but}) + (due - (due' - {but}));
    }
  }

  /** How many statements of a loop with this cutoff are among the events. */
  function Batches(events: seq<Event>, cutoff: int): nat {
    if events == [] then 0
    else Batches(events[..|events| - 1], cutoff) + if events[|events| - 1].op == OpExpireBatch(cutoff) then 1 else 0
  }

  function Remaining(due: nat, batches: nat): nat {
    if due <= ANSWER_BATCH_SIZE * batches then 0 else due - ANSWER_BATCH_SIZE * batches
  }

  /** How many late writers are among the events. */
  function LateWriters(events: seq<Event>, cutoff: int): nat {
    if events == [] then 0
    else LateWriters(events[..|events| - 1], cutoff) + if Ahead(events[|events| - 1], cutoff) then 0 else 1
  }

  /** Whatever runs between the batches of a loop, and whatever the clock does: each batch takes up
      to 64 off the answers expired at the loop's sample, and only a late writer adds to them,
      one at most. */
  lemma {:induction false} SweepProgresses(s: Store, events: seq<Event>, cutoff: int)
    ensures DueCount(Run(s, events).ledger.receipts, cutoff)
         <= Remaining(DueCount(s.ledger.receipts, cutoff), Batches(events, cutoff)) + LateWriters(events, cutoff)
  {
    hide Step, DueCount, RowsAheadBut, ExpiryBatch, Ahead;
    if events != [] {
      var earlier, last := events[..|events| - 1], events[|events| - 1];
      SweepProgresses(s, earlier, cutoff);
      var before := Run(s, earlier);
      if last.op == OpExpireBatch(cutoff) {
        BatchStep(before, last.at, cutoff);
      } else {
        var but := StepAhead(before, last, cutoff);
        DueGrowsByLate(before.ledger.receipts, Run(s, events).ledger.receipts, cutoff, but);
      }
    }
  }

  lemma BatchStep(s: Store, at: Clock, cutoff: int)
    ensures var due := DueCount(s.ledger.receipts, cutoff);
            DueCount(Step(s, Event(at, OpExpireBatch(cutoff))).ledger.receipts, cutoff)
            == if due <= ANSWER_BATCH_SIZE then 0 else due - ANSWER_BATCH_SIZE
  {
    hide DueCount, ExpiryBatch;
    BatchTurn(s.ledger.receipts, s.ledger.receipts, cutoff);
  }

  /** Enough batches leave at most as many answers expired at the sample as there were late
      writers; without one, the next batch is empty and the loop ends. */
  lemma SweepEnds(s: Store, events: seq<Event>, cutoff: int)
    requires DueCount(s.ledger.receipts, cutoff) <= ANSWER_BATCH_SIZE * Batches(events, cutoff)
    ensures var rows := Run(s, events).ledger.receipts;
            && Count(rows, ExpiredBy(cutoff)) <= LateWriters(events, cutoff)
            && (LateWriters(events, cutoff) == 0 ==> ExpiryBatch(rows, cutoff) == {})
  {
    SweepProgresses(s, events, cutoff);
    DueIsCount(Run(s, events).ledger.receipts, cutoff);
    EmptyBatchMeansClear(Run(s, events).ledger.receipts, cutoff);
  }

  lemma EmptyBatchMeansClear(rows: seq<Receipt>, cutoff: int)
    ensures DueCount(rows, cutoff) == 0 <==> ExpiryBatch(rows, cutoff) == {}
    ensures ExpiryBatch(rows, cutoff) == {} <==> forall i | 0 <= i < |rows| :: !ExpiredBy(cutoff)(rows[i])
  {
    hide Expiry.Batch;
    var due := Expiry.DueRows(AnswerDeadlines(rows), cutoff);
    Expiry.BatchProgresses(AnswerDeadlines(rows), cutoff, ANSWER_BATCH_SIZE);
    assert |due| == 0 <==> due == {};
    forall i
      ensures i in due <==> 0 <= i < |rows| && ExpiredBy(cutoff)(rows[i])
    {
      DueIsExpired(rows, cutoff, i);
    }
  }

  /** Whatever ran meanwhile and whatever the clock did, once the loop sees an empty batch every
      answer that was expired when it began is gone, and stays gone. */
  lemma SweptForGood(before: seq<Event>, meanwhile: seq<Event>, later: seq<Event>, cutoff: int, i: nat)
    requires i < |Run(EMPTY_STORE, before).ledger.receipts|
    requires ExpiredBy(cutoff)(Run(EMPTY_STORE, before).ledger.receipts[i])
    requires ExpiryBatch(Run(Run(EMPTY_STORE, before), meanwhile).ledger.receipts, cutoff) == {}
    ensures var rows := Run(Run(Run(EMPTY_STORE, before), meanwhile), later).ledger.receipts;
            i < |rows| && rows[i].recovery.None?
  {
    hide Run, Step, LedgerInv, RegistryInv, ExpiryBatch;
    var s := Run(EMPTY_STORE, before);
    var s1 := Run(s, meanwhile);
    Reachable(before);
    RunKeeps(s, meanwhile);
    RunKeeps(s1, later);
    assert Evolves(s.ledger.receipts[i], s1.ledger.receipts[i]);
    assert Evolves(s1.ledger.receipts[i], Run(s1, later).ledger.receipts[i]);
    EmptyBatchMeansClear(s1.ledger.receipts, cutoff);
    SavedMeansOutput(s, i);
  }

  lemma SavedMeansOutput(s: Store, i: nat)
    requires StoreInv(s) && i < |s.ledger.receipts| && s.ledger.receipts[i].recovery.Some?
    ensures s.ledger.receipts[i].output
  {
    assert RowOk(s.ledger.receipts[i]);
  }
}
