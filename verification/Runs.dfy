/** Runs of the operational database: any sequence of transactions at any times, including
    a clock that moves backwards. A refused transaction rolls back; a crash between
    transactions changes nothing, and a restart keeps only the tables. */
module Runs {
  import opened Tables
  import opened Records
  import opened SpendLedger
  import opened LedgerInvariants
  import opened LedgerSteps
  import opened Registry
  import opened RegistryInvariants
  import opened RegistrySteps

  datatype Op =
    | OpReserve(r: Reservation, limit: Option<u32>)
    | OpReconcile(reference: string, state: SpendState, usage: Option<Usage>, output: Option<string>,
                  retention: nat, policy: JobPolicy)
    | OpRelease(reference: string)
    | OpAcquire(handoff: Handoff, account: string, input: string, owner: string)
    | OpConstrain(reference: string, policy: JobPolicy)
    | OpDiscard(account: string, invocation: string)
    | OpPurgeAnswers(answers: set<string>)
    | OpExpireBatch(cutoff: int)
    | OpPublish(grant: GrantKey, revision: nat)
    | OpIssue(a: Attempt, maxAttempts: nat, token: string)
    | OpConsume(a: Attempt, token: string, handoff: Handoff, maxAttempts: nat)
    | OpAcceptJob(a: Attempt, r: Reservation, attemptLimit: u32, maxAttempts: nat, token: string)
    | OpAdmit(a: Attempt, key: string, budgetPolicy: Option<BudgetPolicy>)
    | OpComplete(a: Attempt, execution: Execution, mode: AnswerRecovery, budget: Option<BudgetAdmission>)
    | OpFinishJob(reference: string, state: SpendState, usage: Option<Usage>, output: Option<string>,
                  evidence: bool, retention: nat, deadline: Option<int>, policy: JobPolicy)
    | OpPurgeResults

  /** One committed transaction and the clock samples it takes. */
  datatype Event = Event(at: Clock, op: Op)

  /** The store after one event; a refused transaction leaves it unchanged. */
  function Step(s: Store, e: Event): Store {
    match e.op
    case OpReserve(r, limit) =>
      (match Reserve(s.ledger, r, limit, None)
       case Err(_) => s
       case Ok((_, l)) => s.(ledger := l))
    case OpReconcile(reference, state, usage, output, retention, policy) =>
      (match FinishWithAnswer(s.ledger, reference, state, usage, output, false, retention, None, policy, e.at)
       case Err(_) => s
       case Ok(l) => WithLedger(s, reference, l))
    case OpRelease(reference) =>
      (match Release(s.ledger, reference)
       case Err(_) => s
       case Ok(l) => WithLedger(s, reference, l))
    case OpAcquire(handoff, account, input, owner) =>
      (match AcquireHandoff(s.ledger, handoff, account, input, owner)
       case Err(_) => s
       case Ok(l) => s.(ledger := l))
    case OpConstrain(reference, policy) =>
      (match ConstrainAnswer(s.ledger, reference, policy, e.at.first)
       case Err(_) => s
       case Ok(l) => s.(ledger := l))
    case OpDiscard(account, invocation) => s.(ledger := DiscardAnswer(s.ledger, account, invocation))
    case OpPurgeAnswers(answers) => s.(ledger := Erase(s.ledger, AnswerIn(answers)))
    case OpExpireBatch(cutoff) => s.(ledger := ExpireBatch(s.ledger, cutoff))
    case OpPublish(grant, revision) => Kept(s, Publish(s, grant, revision))
    case OpIssue(a, maxAttempts, token) => Kept(s, IssueIn(s, a, maxAttempts, e.at, token))
    case OpConsume(a, token, handoff, maxAttempts) =>
      Kept(s, Consume(s, a, token, handoff, maxAttempts, e.at.first))
    case OpAcceptJob(a, r, attemptLimit, maxAttempts, token) =>
      Kept(s, AcceptJob(s, a, r, attemptLimit, maxAttempts, e.at, token))
    case OpAdmit(a, key, policy) =>
      (match Admit(s, a, key, policy, e.at.first)
       case Err(_) => s
       case Ok((s', _)) => s')
    case OpComplete(a, execution, mode, budget) => Kept(s, Complete(s, a, execution, mode, budget, e.at))
    case OpFinishJob(reference, state, usage, output, evidence, retention, deadline, policy) =>
      (match FinishWithAnswer(s.ledger, reference, state, usage, output, evidence, retention, deadline,
                              policy, e.at)
       case Err(_) => s
       case Ok(l) => var s' := WithLedger(s, reference, l); s'.(permits := Retire(s'.permits, reference)))
    case OpPurgeResults => PurgeResults(s, e.at.first)
  }

  function Kept(s: Store, result: Result<Store, EgressError>): Store {
    if result.Ok? then result.value else s
  }

  function Run(s: Store, events: seq<Event>): Store {
    if events == [] then s else Step(Run(s, events[..|events| - 1]), events[|events| - 1])
  }

  lemma RunAppend(s: Store, events: seq<Event>, e: Event)
    ensures Run(s, events + [e]) == Step(Run(s, events), e)
  {
    hide Step;
    assert (events + [e])[..|events|] == events;
  }

  // ---- Every step keeps the store -----------------------------------------------

  lemma Unchanged(s: Store)
    requires StoreInv(s)
    ensures StoreKeeps(s, s)
  {
    hide LedgerInv, RegistryInv;
    ReceiptsUnchanged(s);
  }

  lemma LedgerStepKeeps(s: Store, e: Event)
    requires StoreInv(s)
    requires e.op.OpReserve? || e.op.OpAcquire? || e.op.OpConstrain? || e.op.OpDiscard?
             || e.op.OpPurgeAnswers? || e.op.OpExpireBatch?
    ensures StoreKeeps(s, Step(s, e))
  {
    hide LedgerInv, RegistryInv, StoreAdvances, Advances, Reserve, AcquireHandoff, ConstrainAnswer;
    hide DiscardAnswer, Erase, ExpireBatch;
    Unchanged(s);
    match e.op
    case OpReserve(r, limit) =>
      ReserveKeeps(s.ledger, r, limit, None);
      if Reserve(s.ledger, r, limit, None).Ok? {
        LedgerKeeps(s, Step(s, e).ledger);
      }
    case OpAcquire(handoff, account, input, owner) =>
      AcquireKeeps(s.ledger, handoff, account, input, owner);
      if AcquireHandoff(s.ledger, handoff, account, input, owner).Ok? {
        LedgerKeeps(s, Step(s, e).ledger);
      }
    case OpConstrain(reference, policy) =>
      ConstrainKeeps(s.ledger, reference, policy, e.at.first);
      if ConstrainAnswer(s.ledger, reference, policy, e.at.first).Ok? {
        LedgerKeeps(s, Step(s, e).ledger);
      }
    case OpDiscard(account, invocation) =>
      DiscardKeeps(s.ledger, account, invocation);
      LedgerKeeps(s, Step(s, e).ledger);
    case OpPurgeAnswers(answers) =>
      EraseKeeps(s.ledger, AnswerIn(answers));
      LedgerKeeps(s, Step(s, e).ledger);
    case OpExpireBatch(cutoff) =>
      ExpireBatchKeeps(s.ledger, cutoff);
      LedgerKeeps(s, Step(s, e).ledger);
  }

  lemma SettlingStepKeeps(s: Store, e: Event)
    requires StoreInv(s) && (e.op.OpReconcile? || e.op.OpRelease? || e.op.OpFinishJob?)
    ensures StoreKeeps(s, Step(s, e))
  {
    hide LedgerInv, RegistryInv, StoreAdvances, Advances, FinishWithAnswer, Release, WithLedger;
    Unchanged(s);
    match e.op
    case OpReconcile(reference, state, usage, output, retention, policy) =>
      FinishWithAnswerKeeps(s.ledger, reference, state, usage, output, false, retention, None, policy, e.at);
      var result := FinishWithAnswer(s.ledger, reference, state, usage, output, false, retention, None,
                                     policy, e.at);
      if result.Ok? {
        WithLedgerKeeps(s, reference, result.value);
      }
    case OpRelease(reference) =>
      ReleaseKeeps(s.ledger, reference);
      if Release(s.ledger, reference).Ok? {
        WithLedgerKeeps(s, reference, Release(s.ledger, reference).value);
      }
    case OpFinishJob(reference, state, usage, output, evidence, retention, deadline, policy) =>
      FinishWithAnswerKeeps(s.ledger, reference, state, usage, output, evidence, retention, deadline,
                            policy, e.at);
      var result := FinishWithAnswer(s.ledger, reference, state, usage, output, evidence, retention,
                                     deadline, policy, e.at);
      if result.Ok? {
        var settled := WithLedger(s, reference, result.value);
        WithLedgerKeeps(s, reference, result.value);
        RetireKeeps(settled, reference);
        Chain(s, settled, Step(s, e));
      }
  }

  lemma RegistryStepKeeps(s: Store, e: Event)
    requires StoreInv(s)
    requires e.op.OpPublish? || e.op.OpIssue? || e.op.OpConsume? || e.op.OpAcceptJob? || e.op.OpAdmit?
             || e.op.OpComplete? || e.op.OpPurgeResults?
    ensures StoreKeeps(s, Step(s, e))
  {
    hide LedgerInv, RegistryInv, StoreAdvances, Publish, IssueIn, Consume, AcceptJob, Admit, Complete;
    hide PurgeResults, FindLast;
    Unchanged(s);
    match e.op
    case OpPublish(grant, revision) => PublishKeeps(s, grant, revision);
    case OpIssue(a, maxAttempts, token) => IssueKeeps(s, a, maxAttempts, e.at, token);
    case OpConsume(a, token, handoff, maxAttempts) => ConsumeKeeps(s, a, token, handoff, maxAttempts, e.at.first);
    case OpAcceptJob(a, r, attemptLimit, maxAttempts, token) =>
      AcceptJobKeeps(s, a, r, attemptLimit, maxAttempts, e.at, token);
    case OpAdmit(a, key, policy) => AdmitKeeps(s, a, key, policy, e.at.first);
    case OpComplete(a, execution, mode, budget) => CompleteKeeps(s, a, execution, mode, budget, e.at);
    case OpPurgeResults => PurgeKeeps(s, e.at.first);
  }

  lemma StepKeeps(s: Store, e: Event)
    requires StoreInv(s)
    ensures StoreKeeps(s, Step(s, e))
  {
    hide LedgerInv, RegistryInv, StoreAdvances, Step;
    if e.op.OpReconcile? || e.op.OpRelease? || e.op.OpFinishJob? {
      SettlingStepKeeps(s, e);
    } else if e.op.OpPublish? || e.op.OpIssue? || e.op.OpConsume? || e.op.OpAcceptJob? || e.op.OpAdmit?
              || e.op.OpComplete? || e.op.OpPurgeResults? {
      RegistryStepKeeps(s, e);
    } else {
      LedgerStepKeeps(s, e);
    }
  }

  /** Every run from a good store ends in one, and only appends or evolves rows. */
  lemma {:induction false} RunKeeps(s: Store, events: seq<Event>)
    requires StoreInv(s)
    ensures StoreKeeps(s, Run(s, events))
  {
    hide LedgerInv, RegistryInv, StoreAdvances, Step;
    if events == [] {
      Unchanged(s);
    } else {
      var before := Run(s, events[..|events| - 1]);
      RunKeeps(s, events[..|events| - 1]);
      StepKeeps(before, events[|events| - 1]);
      Chain(s, before, Run(s, events));
    }
  }

  lemma EmptyStoreInv()
    ensures StoreInv(EMPTY_STORE)
  {
  }

  lemma Reachable(events: seq<Event>)
    ensures StoreInv(Run(EMPTY_STORE, events))
  {
    EmptyStoreInv();
    RunKeeps(EMPTY_STORE, events);
  }
}
