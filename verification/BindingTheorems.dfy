/** When a request binding stands for an uncertain send. An admission may bind an attempt whose
    receipt was resolved meanwhile; without such an admission every binding is of an Unknown
    charge, and a request key has at most one. */
module BindingTheorems {
  import opened Tables
  import opened Records
  import opened SpendLedger
  import opened LedgerInvariants
  import opened LedgerSteps
  import opened Registry
  import opened RegistryInvariants
  import opened RegistrySteps
  import opened Runs
  import opened ReadBack
  import RequestBudget
  import Expiry

  predicate BindingCertain(l: Ledger, p: Permit) {
    p.requestKey.Some? ==> LedgerState(l, p) == Some(Unknown)
  }

  /** Every bound permit is Unknown in the ledger. */
  ghost predicate BoundUnknown(s: Store) {
    forall i | 0 <= i < |s.permits| :: BindingCertain(s.ledger, s.permits[i])
  }

  /** The ledger state of the attempt in flight, which a caller can read before admitting it. */
  function StateInFlight(s: Store, a: Attempt): Option<SpendState> {
    match Newest(s.permits, InFlightFor(a))
    case None => None
    case Some(p) => LedgerState(s.ledger, p)
  }

  /** An admission that succeeds although the attempt's receipt is already resolved. */
  predicate LateAdmission(s: Store, e: Event) {
    && e.op.OpAdmit?
    && Admit(s, e.op.a, e.op.key, e.op.budgetPolicy, e.at.first).Ok?
    && Resolved(StateInFlight(s, e.op.a))
  }

  // ---- Which states a ledger transaction changes --------------------------------

  /** Receipts keep their places, and all but those of one reference their states. */
  ghost predicate StatesKeptBut(rows: seq<Receipt>, rows': seq<Receipt>, but: Option<string>) {
    && |rows| <= |rows'|
    && forall i | 0 <= i < |rows| ::
         && rows'[i].reservation == rows[i].reservation
         && (but != Some(rows[i].reservation.reference) ==> rows'[i].state == rows[i].state)
  }

  lemma StateKept(l: Ledger, l': Ledger, but: Option<string>, reference: string)
    requires UniqueReferences(l.receipts) && UniqueReferences(l'.receipts)
    requires StatesKeptBut(l.receipts, l'.receipts, but) && but != Some(reference)
    requires StateOf(l, reference).Some?
    ensures StateOf(l', reference) == StateOf(l, reference)
  {
    var i := ReceiptIndex(l, reference).value;
    assert HasReference(reference)(l.receipts[i]);
    IndexByReference(l', i);
  }

  lemma ReserveKeepsStates(l: Ledger, r: Reservation, limit: Option<u32>, handoff: Option<string>)
    ensures var result := Reserve(l, r, limit, handoff);
            result.Ok? ==> StatesKeptBut(l.receipts, result.value.1.receipts, None)
  {
    hide FindLast;
  }

  lemma FinishKeepsStates(l: Ledger, reference: string, state: SpendState, usage: Option<Usage>, output: bool)
    ensures var result := Finish(l, reference, state, usage, output);
            result.Ok? ==> StatesKeptBut(l.receipts, result.value.receipts, Some(reference))
  {
    hide FindLast;
    var found := ReceiptIndex(l, reference);
    if found.Some? {
      assert HasReference(reference)(l.receipts[found.value]);
    }
  }

  lemma FinishWithAnswerKeepsStates(l: Ledger, reference: string, state: SpendState, usage: Option<Usage>,
                                    output: Option<string>, evidence: bool, retention: nat, deadline: Option<int>,
                                    policy: JobPolicy, at: Clock)
    ensures var result := FinishWithAnswer(l, reference, state, usage, output, evidence, retention, deadline,
                                           policy, at);
            result.Ok? ==> StatesKeptBut(l.receipts, result.value.receipts, Some(reference))
  {
    hide FindLast, Finish;
    var saved := SaveAnswer(l, reference, output, retention, deadline, policy, at);
    if saved.Ok? {
      FinishKeepsStates(saved.value, reference, state, usage, evidence || output.Some?);
    }
  }

  lemma ReleaseKeepsStates(l: Ledger, reference: string)
    ensures var result := Release(l, reference);
            result.Ok? ==> StatesKeptBut(l.receipts, result.value.receipts, Some(reference))
  {
    hide FindLast, Finish;
    FinishKeepsStates(l, reference, Released, None, false);
  }

  // ---- Which bindings a store change keeps --------------------------------------

  /** Ledger changes without a settlement leave every binding certain. */
  lemma SameStatesStayCertain(s: Store, s': Store)
    requires StoreInv(s) && StoreInv(s') && BoundUnknown(s)
    requires StatesKeptBut(s.ledger.receipts, s'.ledger.receipts, None)
    requires forall i | 0 <= i < |s'.permits| && s'.permits[i].requestKey.Some? ::
               i < |s.permits| && s.permits[i].requestKey.Some? && s.permits[i].receipt == s'.permits[i].receipt
    ensures BoundUnknown(s')
  {
    forall i | 0 <= i < |s'.permits| && s'.permits[i].requestKey.Some?
      ensures LedgerState(s'.ledger, s'.permits[i]) == Some(Unknown)
    {
      assert BindingCertain(s.ledger, s.permits[i]);
      hide RegistryInv;
      StateKept(s.ledger, s'.ledger, None, s.permits[i].receipt.value.reference);
    }
  }

  /** A settlement retires what it resolves and leaves the others alone. */
  lemma SettlingStaysCertain(s: Store, reference: string, l: Ledger)
    requires StoreInv(s) && UniqueReferences(l.receipts) && BoundUnknown(s)
    requires StatesKeptBut(s.ledger.receipts, l.receipts, Some(reference))
    requires StateOf(s.ledger, reference).Some? ==> StateOf(l, reference).Some?
    ensures BoundUnknown(WithLedger(s, reference, l))
  {
    var s' := WithLedger(s, reference, l);
    forall i | 0 <= i < |s'.permits| && s'.permits[i].requestKey.Some?
      ensures LedgerState(l, s'.permits[i]) == Some(Unknown)
    {
      var p := s.permits[i];
      assert BindingCertain(s.ledger, p);
      PermitHolds(s, i);
      hide RegistryInv, Retire, FindLast;
      if p.receipt.value.reference == reference {
        assert Outstanding(p) && Refers(p, reference);
      } else {
        StateKept(s.ledger, l, Some(reference), p.receipt.value.reference);
      }
    }
  }

  /** Clearing a binding keeps the others certain. */
  lemma ClearingStaysCertain(s: Store, permits: seq<Permit>)
    requires BoundUnknown(s) && |permits| == |s.permits|
    requires forall i | 0 <= i < |permits| ::
               permits[i].requestKey.None?
               || (permits[i].requestKey == s.permits[i].requestKey && permits[i].receipt == s.permits[i].receipt)
    ensures BoundUnknown(s.(permits := permits))
  {
    forall i | 0 <= i < |permits|
      ensures BindingCertain(s.ledger, permits[i])
    {
      assert BindingCertain(s.ledger, s.permits[i]);
    }
  }

  // ---- Every transaction but a late admission -----------------------------------

  lemma SettlingStepStaysCertain(s: Store, e: Event)
    requires StoreInv(s) && BoundUnknown(s) && (e.op.OpReconcile? || e.op.OpRelease? || e.op.OpFinishJob?)
    ensures BoundUnknown(Step(s, e))
  {
    hide LedgerInv, RegistryInv, StoreAdvances, Advances, FinishWithAnswer, Release, WithLedger, Retire, FindLast;
    hide BoundUnknown, StatesKeptBut;
    match e.op
    case OpReconcile(reference, state, usage, output, retention, policy) =>
      SettledByAnswer(s, reference, state, usage, output, false, retention, None, policy, e.at);
    case OpRelease(reference) =>
      var result := Release(s.ledger, reference);
      if result.Ok? {
        ReleaseKeeps(s.ledger, reference);
        ReleaseKeepsStates(s.ledger, reference);
        SettledStaysCertain(s, reference, result.value);
      }
    case OpFinishJob(reference, state, usage, output, evidence, retention, deadline, policy) =>
      SettledByAnswer(s, reference, state, usage, output, evidence, retention, deadline, policy, e.at);
      var result := FinishWithAnswer(s.ledger, reference, state, usage, output, evidence, retention, deadline,
                                     policy, e.at);
      if result.Ok? {
        var settled := WithLedger(s, reference, result.value);
        RetiringStaysCertain(settled, reference);
      }
  }

  lemma SettledByAnswer(s: Store, reference: string, state: SpendState, usage: Option<Usage>,
                        output: Option<string>, evidence: bool, retention: nat, deadline: Option<int>,
                        policy: JobPolicy, at: Clock)
    requires StoreInv(s) && BoundUnknown(s)
    ensures var result := FinishWithAnswer(s.ledger, reference, state, usage, output, evidence, retention, deadline,
                                           policy, at);
            result.Ok? ==> BoundUnknown(WithLedger(s, reference, result.value))
  {
    hide LedgerInv, RegistryInv, Advances, FinishWithAnswer, WithLedger, BoundUnknown, StatesKeptBut;
    var result := FinishWithAnswer(s.ledger, reference, state, usage, output, evidence, retention, deadline, policy,
                                   at);
    if result.Ok? {
      FinishWithAnswerKeeps(s.ledger, reference, state, usage, output, evidence, retention, deadline, policy, at);
      FinishWithAnswerKeepsStates(s.ledger, reference, state, usage, output, evidence, retention, deadline, policy, at);
      SettledStaysCertain(s, reference, result.value);
    }
  }

  lemma SettledStaysCertain(s: Store, reference: string, l: Ledger)
    requires StoreInv(s) && BoundUnknown(s) && Keeps(s.ledger, l)
    requires StatesKeptBut(s.ledger.receipts, l.receipts, Some(reference))
    ensures BoundUnknown(WithLedger(s, reference, l))
  {
    if StateOf(s.ledger, reference).Some? {
      StateAdvances(s.ledger, l, reference);
    }
    SettlingStaysCertain(s, reference, l);
  }

  lemma RetiringStaysCertain(s: Store, reference: string)
    requires BoundUnknown(s)
    ensures BoundUnknown(s.(permits := Retire(s.permits, reference)))
  {
    hide Retire;
    ClearingStaysCertain(s, Retire(s.permits, reference));
  }

  lemma CompleteStaysCertain(s: Store, a: Attempt, e: Execution, mode: AnswerRecovery,
                             budget: Option<BudgetAdmission>, at: Clock)
    requires StoreInv(s) && BoundUnknown(s)
    ensures var result := Complete(s, a, e, mode, budget, at);
            result.Ok? ==> BoundUnknown(result.value)
  {
    hide LedgerInv, RegistryInv, Advances, FindLast, Complete, Finish, WithLedger, BoundUnknown, StatesKeptBut;
    hide StoreAdvances, Outcome, HandedOut;
    var result := Complete(s, a, e, mode, budget, at);
    if result.Ok? {
      CompletionShape(s, a, e, mode, budget, at);
      HandedOutInFlight(s, a);
      var i := FindLast(s.permits, InFlightFor(a)).value;
      var reference := s.permits[i].receipt.value.reference;
      CompleteKeepsStates(s, a, e, mode, budget, at);
      SettledStaysCertain(s, reference, result.value.ledger);
      var settled := WithLedger(s, reference, result.value.ledger);
      ClearingStaysCertain(settled, result.value.permits);
      SameBindings(settled.(permits := result.value.permits), result.value);
    }
  }

  lemma SameBindings(s: Store, s': Store)
    requires BoundUnknown(s) && s'.ledger == s.ledger && s'.permits == s.permits
    ensures BoundUnknown(s')
  {
  }

  lemma CompleteKeepsStates(s: Store, a: Attempt, e: Execution, mode: AnswerRecovery,
                            budget: Option<BudgetAdmission>, at: Clock)
    requires HandedOut(s, a).Some?
    ensures var result := Complete(s, a, e, mode, budget, at);
            result.Ok? ==> StatesKeptBut(s.ledger.receipts, result.value.ledger.receipts,
                                         Some(HandedOut(s, a).value.stored.reference))
  {
    hide FindLast, Finish, WithLedger, FinishedPermit, SettledBudget, UsageEvidence, HandedOut, StatesKeptBut;
    var (result, outputReceived) := Outcome(HandedOut(s, a).value, e);
    FinishKeepsStates(s.ledger, result.receipt.stored.reference, result.receipt.spendState,
                      UsageEvidence(mode, result.receipt.usage, outputReceived), outputReceived);
  }

  /** Every binding of `permits'` was there before, on the same receipt. */
  ghost predicate BindingsFrom(permits: seq<Permit>, permits': seq<Permit>) {
    forall i | 0 <= i < |permits'| && permits'[i].requestKey.Some? ::
      i < |permits| && permits[i].requestKey.Some? && permits[i].receipt == permits'[i].receipt
  }

  lemma AcceptBindsNothing(s: Store, a: Attempt, token: string, reference: string, maxAttempts: nat, now: nat)
    requires StoreInv(s)
    ensures var result := AcceptIn(s, a, token, reference, maxAttempts, now);
            result.Ok? ==> result.value.ledger == s.ledger && BindingsFrom(s.permits, result.value.permits)
  {
    var found := FindLast(s.permits, Pending(a, token));
    if found.Some? {
      assert Pending(a, token)(s.permits[found.value]);
      PermitHolds(s, found.value);
    }
    hide LedgerInv, RegistryInv, FindLast, Superseded, CurrentRevision;
  }

  lemma IssueBindsNothing(s: Store, a: Attempt, maxAttempts: nat, at: Clock, token: string)
    ensures var result := IssueIn(s, a, maxAttempts, at, token);
            result.Ok? ==> result.value.ledger == s.ledger && BindingsFrom(s.permits, result.value.permits)
  {
    if IssueIn(s, a, maxAttempts, at, token).Ok? {
      IssueShape(s, a, maxAttempts, at, token);
      hide IssueIn;
    }
  }

  lemma BindingsChain(a: seq<Permit>, b: seq<Permit>, c: seq<Permit>)
    requires BindingsFrom(a, b) && BindingsFrom(b, c)
    ensures BindingsFrom(a, c)
  {
  }

  lemma AcceptJobBindsNothing(s: Store, a: Attempt, reference: string, maxAttempts: nat, at: Clock, token: string)
    requires StoreInv(s)
    ensures var result := AcceptJobIn(s, a, reference, maxAttempts, at, token);
            result.Ok? ==> result.value.ledger == s.ledger && BindingsFrom(s.permits, result.value.permits)
  {
    hide LedgerInv, RegistryInv, FindLast, AcceptIn, IssueIn, BindingsFrom, StoreAdvances;
    var result := AcceptJobIn(s, a, reference, maxAttempts, at, token);
    if result.Ok? {
      var existing := Newest(s.permits, AtOrdinal(a.invocation, a.ordinal));
      if existing.Some? {
        AcceptBindsNothing(s, a, existing.value.token, reference, maxAttempts, at.third);
      } else {
        IssueKeeps(s, a, maxAttempts, at, token);
        IssueBindsNothing(s, a, maxAttempts, at, token);
        var issued := IssueIn(s, a, maxAttempts, at, token).value;
        AcceptBindsNothing(issued, a, token, reference, maxAttempts, at.third);
        BindingsChain(s.permits, issued.permits, result.value.permits);
      }
    }
  }

  lemma SameBindingsFrom(permits: seq<Permit>)
    ensures BindingsFrom(permits, permits)
  {
  }

  lemma PurgeBindsNothing(s: Store, now: nat)
    ensures PurgeResults(s, now).ledger == s.ledger && BindingsFrom(s.permits, PurgeResults(s, now).permits)
  {
  }

  /** The transactions that accept, but settle nothing. */
  lemma AcceptingStep(s: Store, e: Event)
    requires StoreInv(s) && (e.op.OpConsume? || e.op.OpAcceptJob?)
    ensures StatesKeptBut(s.ledger.receipts, Step(s, e).ledger.receipts, None)
    ensures BindingsFrom(s.permits, Step(s, e).permits)
  {
    hide LedgerInv, RegistryInv, FindLast, Reserve, AcceptIn, AcceptJobIn, Consume, BindingsFrom, StoreAdvances;
    hide Advances;
    SameBindingsFrom(s.permits);
    var op := e.op;
    if op.OpConsume? {
      var r := op.handoff.reservation;
      ConsumeShape(s, op.a, op.token, op.handoff, op.maxAttempts, e.at.first);
      ReserveKeepsStates(s.ledger, r, None, Some(op.handoff.inputIdentity));
      AcceptBindsNothing(s, op.a, op.token, r.reference, op.maxAttempts, e.at.first);
    } else {
      var reserved := Reserve(s.ledger, op.r, Some(op.attemptLimit), None);
      ReserveKeepsStates(s.ledger, op.r, Some(op.attemptLimit), None);
      ReserveKeeps(s.ledger, op.r, Some(op.attemptLimit), None);
      if reserved.Ok? {
        var s1 := s.(ledger := reserved.value.1);
        LedgerKeeps(s, s1.ledger);
        AcceptJobBindsNothing(s1, op.a, op.r.reference, op.maxAttempts, e.at, op.token);
      }
    }
  }

  /** The transactions that neither accept, settle nor admit. */
  lemma QuietStep(s: Store, e: Event)
    requires !(e.op.OpConsume? || e.op.OpAcceptJob? || e.op.OpAdmit? || e.op.OpComplete?)
    requires !(e.op.OpReconcile? || e.op.OpRelease? || e.op.OpFinishJob?)
    ensures StatesKeptBut(s.ledger.receipts, Step(s, e).ledger.receipts, None)
    ensures BindingsFrom(s.permits, Step(s, e).permits)
  {
    hide FindLast, Reserve, IssueIn, BindingsFrom, ExpiryBatch, PurgeResults;
    SameBindingsFrom(s.permits);
    match e.op
    case OpReserve(r, limit) => ReserveKeepsStates(s.ledger, r, limit, None);
    case OpIssue(a, maxAttempts, token) => IssueBindsNothing(s, a, maxAttempts, e.at, token);
    case OpPurgeResults => PurgeBindsNothing(s, e.at.first);
    case _ =>
  }

  // ---- Admissions ---------------------------------------------------------------

  /** What an admission binds. */
  lemma AdmitBinds(s: Store, a: Attempt, key: string, policy: Option<BudgetPolicy>, now: nat)
    requires StoreInv(s) && Admit(s, a, key, policy, now).Ok?
    ensures var s' := Admit(s, a, key, policy, now).value.0;
            var found := FindLast(s.permits, InFlightFor(a));
            && s'.ledger == s.ledger && found.Some? && found.value < |s.permits| == |s'.permits|
            && s'.permits == s.permits[found.value := s.permits[found.value].(requestKey := Some(key))]
            && StateInFlight(s, a) == LedgerState(s.ledger, s.permits[found.value])
            && StateInFlight(s, a).Some?
  {
    var found := FindLast(s.permits, InFlightFor(a));
    if found.Some? {
      assert InFlightFor(a)(s.permits[found.value]);
      PermitHolds(s, found.value);
    }
    hide LedgerInv, RegistryInv, FindLast, StateOf, RequestBudget.Debit;
  }

  /** An admission keeps every binding certain if and only if it is not late. */
  lemma AdmissionCertainWhen(s: Store, e: Event)
    requires StoreInv(s) && BoundUnknown(s) && e.op.OpAdmit?
    ensures BoundUnknown(Step(s, e)) <==> !LateAdmission(s, e)
  {
    hide LedgerInv, RegistryInv, FindLast, StateOf, Admit, StateInFlight;
    var result := Admit(s, e.op.a, e.op.key, e.op.budgetPolicy, e.at.first);
    if result.Ok? {
      AdmitBinds(s, e.op.a, e.op.key, e.op.budgetPolicy, e.at.first);
      var s' := result.value.0;
      var i := FindLast(s.permits, InFlightFor(e.op.a)).value;
      assert LedgerState(s'.ledger, s'.permits[i]) == StateInFlight(s, e.op.a);
      if BoundUnknown(s') {
        assert BindingCertain(s'.ledger, s'.permits[i]);
      }
      forall k | 0 <= k < |s'.permits| && k != i
        ensures BindingCertain(s'.ledger, s'.permits[k])
      {
        assert BindingCertain(s.ledger, s.permits[k]);
      }
    }
  }

  lemma StepCertainWhen(s: Store, e: Event)
    requires StoreInv(s) && BoundUnknown(s)
    ensures BoundUnknown(Step(s, e)) <==> !LateAdmission(s, e)
  {
    hide LedgerInv, RegistryInv, Step, BoundUnknown, StoreAdvances, StatesKeptBut, Complete;
    var op := e.op;
    if op.OpAdmit? {
      AdmissionCertainWhen(s, e);
    } else if op.OpReconcile? || op.OpRelease? || op.OpFinishJob? {
      SettlingStepStaysCertain(s, e);
    } else if op.OpComplete? {
      CompleteStaysCertain(s, op.a, op.execution, op.mode, op.budget, e.at);
      CompleteStep(s, e);
    } else {
      if op.OpConsume? || op.OpAcceptJob? {
        AcceptingStep(s, e);
      } else {
        QuietStep(s, e);
      }
      StepKeeps(s, e);
      SameStatesStayCertain(s, Step(s, e));
    }
  }

  lemma CompleteStep(s: Store, e: Event)
    requires e.op.OpComplete?
    ensures Step(s, e) == Kept(s, Complete(s, e.op.a, e.op.execution, e.op.mode, e.op.budget, e.at))
  {
    hide PurgeResults, FindLast, Reserve, AcquireHandoff, ConstrainAnswer, DiscardAnswer, Erase, ExpireBatch, Retire;
    hide IssueIn, Admit, Complete, Consume, AcceptJob, FinishWithAnswer, Release, WithLedger;
  }

  // ---- Runs ---------------------------------------------------------------------

  ghost predicate AlwaysBoundUnknown(events: seq<Event>) {
    forall n | 0 <= n <= |events| :: BoundUnknown(Run(EMPTY_STORE, events[..n]))
  }

  ghost predicate NoLateAdmission(events: seq<Event>) {
    forall n | 0 <= n < |events| :: !LateAdmission(Run(EMPTY_STORE, events[..n]), events[n])
  }

  lemma AlwaysSplits(events: seq<Event>)
    requires events != []
    ensures AlwaysBoundUnknown(events)
       <==> AlwaysBoundUnknown(events[..|events| - 1]) && BoundUnknown(Run(EMPTY_STORE, events))
  {
    hide BoundUnknown, Run;
    var earlier := events[..|events| - 1];
    assert events[..|events|] == events;
    assert forall n | 0 <= n <= |earlier| :: earlier[..n] == events[..n];
  }

  lemma NoLateSplits(events: seq<Event>)
    requires events != []
    ensures var earlier := events[..|events| - 1];
            NoLateAdmission(events)
            <==> NoLateAdmission(earlier) && !LateAdmission(Run(EMPTY_STORE, earlier), events[|events| - 1])
  {
    hide LateAdmission, Run;
    var earlier := events[..|events| - 1];
    assert forall n | 0 <= n <= |earlier| :: earlier[..n] == events[..n];
  }

  /** Along a run every bound permit is Unknown in the ledger if and only if no admission of the
      run bound an attempt whose receipt was already resolved. */
  lemma {:induction false} BindingsUnknownExactlyWhen(events: seq<Event>)
    ensures AlwaysBoundUnknown(events) <==> NoLateAdmission(events)
  {
    hide LateAdmission, Step;
    if events == [] {
      assert events[..0] == [];
    } else {
      hide BoundUnknown, AlwaysBoundUnknown, NoLateAdmission, StoreInv;
      var earlier, last := events[..|events| - 1], events[|events| - 1];
      BindingsUnknownExactlyWhen(earlier);
      AlwaysSplits(events);
      NoLateSplits(events);
      if AlwaysBoundUnknown(earlier) {
        NowBoundUnknown(earlier);
        Reachable(earlier);
        StepCertainWhen(Run(EMPTY_STORE, earlier), last);
      }
    }
  }

  lemma NowBoundUnknown(events: seq<Event>)
    requires AlwaysBoundUnknown(events)
    ensures BoundUnknown(Run(EMPTY_STORE, events))
  {
    hide BoundUnknown, Run;
    assert events[..|events|] == events;
  }

  /** Without such an admission a request key has at most one binding, and it is of a send that is
      in flight and Unknown. */
  lemma OneBindingPerKey(events: seq<Event>, key: string)
    requires NoLateAdmission(events)
    ensures var s := Run(EMPTY_STORE, events);
            && (forall i | 0 <= i < |s.permits| && s.permits[i].requestKey == Some(key) ::
                  Uncertain(s.ledger, s.permits[i], key))
            && (forall i, j | 0 <= i < |s.permits| && 0 <= j < |s.permits|
                              && s.permits[i].requestKey == Some(key) && s.permits[j].requestKey == Some(key) ::
                  i == j)
  {
    hide Run, LedgerInv, LateAdmission;
    BindingsUnknownExactlyWhen(events);
    NowBoundUnknown(events);
    var s := Run(EMPTY_STORE, events);
    Reachable(events);
    forall i | 0 <= i < |s.permits| && s.permits[i].requestKey == Some(key)
      ensures Uncertain(s.ledger, s.permits[i], key)
    {
      assert BindingCertain(s.ledger, s.permits[i]);
      PermitHolds(s, i);
    }
  }

  // ---- When a binding ends ------------------------------------------------------

  /** A binding is kept, or ended by its dispatch finishing or its charge resolving. */
  predicate BindingEndsWell(l: Ledger, p: Permit, q: Permit) {
    p.requestKey.Some? ==>
      || q.requestKey == p.requestKey
      || (q.requestKey.None? && (q.finished != InFlight || Resolved(LedgerState(l, q))))
  }

  ghost predicate BindingsEndWell(s: Store, s': Store) {
    |s.permits| <= |s'.permits|
    && forall i | 0 <= i < |s.permits| :: BindingEndsWell(s'.ledger, s.permits[i], s'.permits[i])
  }

  /** Ledger commits end only bindings of what they resolve. */
  lemma WithLedgerEndsWell(s: Store, reference: string, l: Ledger)
    ensures BindingsEndWell(s, WithLedger(s, reference, l))
  {
    hide FindLast, Retire;
  }

  lemma SettlingEndsWell(s: Store, e: Event)
    requires e.op.OpReconcile? || e.op.OpRelease?
    ensures BindingsEndWell(s, Step(s, e))
  {
    hide FinishWithAnswer, Release, WithLedger, BindingsEndWell;
    BindingsEndItself(s);
    match e.op
    case OpReconcile(reference, state, usage, output, retention, policy) =>
      var result := FinishWithAnswer(s.ledger, reference, state, usage, output, false, retention, None, policy, e.at);
      if result.Ok? {
        WithLedgerEndsWell(s, reference, result.value);
      }
    case OpRelease(reference) =>
      if Release(s.ledger, reference).Ok? {
        WithLedgerEndsWell(s, reference, Release(s.ledger, reference).value);
      }
  }

  lemma BindingsEndItself(s: Store)
    ensures BindingsEndWell(s, s)
  {
  }

  lemma CompletingEndsWell(s: Store, a: Attempt, e: Execution, mode: AnswerRecovery,
                           budget: Option<BudgetAdmission>, at: Clock)
    requires StoreInv(s)
    ensures var result := Complete(s, a, e, mode, budget, at);
            result.Ok? ==> BindingsEndWell(s, result.value)
  {
    hide LedgerInv, RegistryInv, Advances, FindLast, Complete, Finish, WithLedger, StoreAdvances, Outcome, HandedOut;
    var result := Complete(s, a, e, mode, budget, at);
    if result.Ok? {
      CompletionShape(s, a, e, mode, budget, at);
      HandedOutInFlight(s, a);
      var i := FindLast(s.permits, InFlightFor(a)).value;
      WithLedgerEndsWell(s, s.permits[i].receipt.value.reference, result.value.ledger);
    }
  }

  lemma AdmittingEndsWell(s: Store, e: Event)
    requires StoreInv(s) && e.op.OpAdmit?
    ensures BindingsEndWell(s, Step(s, e))
  {
    hide LedgerInv, RegistryInv, FindLast, StateOf, Admit, StateInFlight;
    if Admit(s, e.op.a, e.op.key, e.op.budgetPolicy, e.at.first).Ok? {
      AdmitBinds(s, e.op.a, e.op.key, e.op.budgetPolicy, e.at.first);
      AdmitsUnbound(s, e.op.a, e.op.key, e.op.budgetPolicy, e.at.first);
    }
  }

  lemma AdmitsUnbound(s: Store, a: Attempt, key: string, policy: Option<BudgetPolicy>, now: nat)
    requires Admit(s, a, key, policy, now).Ok?
    ensures var found := FindLast(s.permits, InFlightFor(a));
            found.Some? && s.permits[found.value].requestKey.None?
  {
    hide FindLast, StateOf, RequestBudget.Debit;
  }

  /** Permits that keep their binding, or had none. */
  ghost predicate BindingsKept(permits: seq<Permit>, permits': seq<Permit>) {
    |permits| <= |permits'|
    && forall i | 0 <= i < |permits| && permits[i].requestKey.Some? :: permits'[i].requestKey == permits[i].requestKey
  }

  lemma AcceptKeepsBindings(s: Store, a: Attempt, token: string, reference: string, maxAttempts: nat, now: nat)
    ensures var result := AcceptIn(s, a, token, reference, maxAttempts, now);
            result.Ok? ==> BindingsKept(s.permits, result.value.permits)
  {
    hide FindLast, Superseded;
  }

  lemma IssueKeepsBindings(s: Store, a: Attempt, maxAttempts: nat, at: Clock, token: string)
    ensures var result := IssueIn(s, a, maxAttempts, at, token);
            result.Ok? ==> BindingsKept(s.permits, result.value.permits)
  {
    if IssueIn(s, a, maxAttempts, at, token).Ok? {
      IssueShape(s, a, maxAttempts, at, token);
      hide IssueIn;
    }
  }

  lemma AcceptJobKeepsBindings(s: Store, a: Attempt, reference: string, maxAttempts: nat, at: Clock, token: string)
    ensures var result := AcceptJobIn(s, a, reference, maxAttempts, at, token);
            result.Ok? ==> BindingsKept(s.permits, result.value.permits)
  {
    hide FindLast, AcceptIn, IssueIn;
    var result := AcceptJobIn(s, a, reference, maxAttempts, at, token);
    if result.Ok? {
      var existing := Newest(s.permits, AtOrdinal(a.invocation, a.ordinal));
      if existing.Some? {
        AcceptKeepsBindings(s, a, existing.value.token, reference, maxAttempts, at.third);
      } else {
        IssueKeepsBindings(s, a, maxAttempts, at, token);
        AcceptKeepsBindings(IssueIn(s, a, maxAttempts, at, token).value, a, token, reference, maxAttempts, at.third);
      }
    }
  }

  lemma QuietKeepsBindings(s: Store, e: Event)
    requires !(e.op.OpAdmit? || e.op.OpComplete? || e.op.OpReconcile? || e.op.OpRelease? || e.op.OpFinishJob?)
    ensures BindingsKept(s.permits, Step(s, e).permits)
  {
    hide FindLast, Reserve, ReserveHandoff, AcceptIn, AcceptJobIn, IssueIn, Expiry.Batch;
    hide AcquireHandoff, ConstrainAnswer, DiscardAnswer, Erase, ExpireBatch;
    var op := e.op;
    if op.OpConsume? {
      AcceptKeepsBindings(s, op.a, op.token, op.handoff.reservation.reference, op.maxAttempts, e.at.first);
    } else if op.OpAcceptJob? {
      var reserved := Reserve(s.ledger, op.r, Some(op.attemptLimit), None);
      if reserved.Ok? {
        AcceptJobKeepsBindings(s.(ledger := reserved.value.1), op.a, op.r.reference, op.maxAttempts, e.at, op.token);
      }
    } else if op.OpIssue? {
      IssueKeepsBindings(s, op.a, op.maxAttempts, e.at, op.token);
    }
  }

  /** A binding stands until its dispatch finishes or its charge resolves; only a job's completion
      ends it otherwise. */
  lemma BindingEndsOnlyWhen(s: Store, e: Event)
    requires StoreInv(s) && !e.op.OpFinishJob?
    ensures BindingsEndWell(s, Step(s, e))
  {
    hide LedgerInv, RegistryInv, Step, Complete;
    var op := e.op;
    if op.OpAdmit? {
      AdmittingEndsWell(s, e);
    } else if op.OpReconcile? || op.OpRelease? {
      SettlingEndsWell(s, e);
    } else if op.OpComplete? {
      CompletingEndsWell(s, op.a, op.execution, op.mode, op.budget, e.at);
      CompleteStep(s, e);
      BindingsEndItself(s);
    } else {
      QuietKeepsBindings(s, e);
    }
  }

  /** A job's completion ends the bindings of its own reference and no other. */
  lemma JobCompletionEndsOwn(s: Store, e: Event, i: nat)
    requires StoreInv(s) && e.op.OpFinishJob? && i < |s.permits|
    requires s.permits[i].requestKey.Some? && !Refers(s.permits[i], e.op.reference)
    ensures i < |Step(s, e).permits| && Step(s, e).permits[i].requestKey == s.permits[i].requestKey
  {
    hide LedgerInv, RegistryInv, FindLast, FinishWithAnswer, Retire, StateOf;
  }

  // ---- A late admission ---------------------------------------------------------

  /** Publish, issue and consume; the charge is then reconciled before the request is admitted. */
  function LateAdmissionRun(): seq<Event> {
    LateRun() + [Event(At(3), OpReconcile("reference", Released, None, None, 0, JobPolicy(false, None)))]
              + [Event(At(4), OpAdmit(LATE_ATTEMPT, "key", None))]
  }

  function ReconciledStore(): Store {
    var row := LateStore().ledger.receipts[0].(state := Released);
    LateStore().(ledger := Ledger(map["account" := 0], [row]))
  }

  lemma Reconciles()
    ensures Step(LateStore(), Event(At(3), OpReconcile("reference", Released, None, None, 0, JobPolicy(false, None))))
         == ReconciledStore()
  {
    var l, row := LateStore().ledger, ReconciledStore().ledger.receipts[0];
    assert HasReference("reference")(l.receipts[0]);
    assert ReceiptIndex(l, "reference") == Some(0);
    assert l.receipts[0 := row] == [row];
    assert l.used["account" := 0] == map["account" := 0];
    assert Finish(l, "reference", Released, None, false) == Ok(ReconciledStore().ledger);
    var result := FinishWithAnswer(l, "reference", Released, None, None, false, 0, None, JobPolicy(false, None), At(3));
    assert result == Ok(ReconciledStore().ledger);
    assert Retire(LateStore().permits, "reference") == LateStore().permits;
  }

  /** A run that ends with a binding of a Released charge. */
  lemma LateAdmissionBindsReleased()
    ensures var s := Run(EMPTY_STORE, LateAdmissionRun());
            && |s.permits| == 1 && s.permits[0].requestKey == Some("key") && Outstanding(s.permits[0])
            && LedgerState(s.ledger, s.permits[0]) == Some(Released)
  {
    hide Step;
    LateRunReaches();
    Reconciles();
    var e1, e2 := LateAdmissionRun()[3], LateAdmissionRun()[4];
    RunAppend(EMPTY_STORE, LateRun(), e1);
    RunAppend(EMPTY_STORE, LateRun() + [e1], e2);
    AdmitsReleased();
  }

  lemma AdmitsReleased()
    ensures var s := Step(ReconciledStore(), Event(At(4), OpAdmit(LATE_ATTEMPT, "key", None)));
            && |s.permits| == 1 && s.permits[0].requestKey == Some("key") && Outstanding(s.permits[0])
            && LedgerState(s.ledger, s.permits[0]) == Some(Released)
  {
    var s := ReconciledStore();
    assert InFlightFor(LATE_ATTEMPT)(s.permits[0]);
    assert FindLast(s.permits, InFlightFor(LATE_ATTEMPT)) == Some(0);
    assert HasReference("reference")(s.ledger.receipts[0]);
    assert StateOf(s.ledger, "reference") == Some(Released);
    assert !UnresolvedFor(s.ledger, "key")(s.permits[0]);
    assert FindLast(s.permits, UnresolvedFor(s.ledger, "key")).None?;
  }
}
