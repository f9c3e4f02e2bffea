/** Rows and values of the operational database: spend receipts, permits, grant
    revisions and request failures.

    A digest is modelled as the digested value itself, so it is injective. Columns that
    are copied from a signed attempt when its permit is inserted and never updated are
    read back from the attempt. */
module Records {
  import opened Tables

  type u32 = n: int | 0 <= n <= 0xFFFF_FFFF
  const U32_MAX := 0xFFFF_FFFF
  const I64_MAX := 0x7FFF_FFFF_FFFF_FFFF

  /** The clock samples of one transaction, in the order they are taken. The clock may move
      either way between them. */
  datatype Clock = Clock(first: nat, second: nat, third: nat)

  /** Samples taken by a clock that does not move back within the transaction. */
  predicate InOrder(at: Clock) {
    at.first <= at.second <= at.third
  }

  // ---- Spend ledger -------------------------------------------------------------

  datatype SpendState = Unknown | Released | Settled

  datatype CostReport = NoCost | ValidCost | InvalidCost

  /** Provider usage: whether any token or unit count is present, the reported cost, and
      the provider's text identities. */
  datatype Usage = Usage(metered: bool, cost: CostReport, identity: string)

  predicate Measured(u: Usage) {
    u.metered || u.cost != NoCost
  }

  datatype Reservation = Reservation(
    reference: string, account: string, invocation: string, binding: string,
    requestLimit: Option<nat>)

  datatype Handoff = Handoff(reservation: Reservation, inputIdentity: string)

  /** The saved answer of an explicit invocation and the deadline it is readable before. */
  datatype SavedAnswer = SavedAnswer(answer: string, expiresAt: int)

  /** One row of spend_receipts; `output` is the content-free completion evidence. */
  datatype Receipt = Receipt(
    reservation: Reservation, state: SpendState, usage: Option<Usage>, output: bool,
    handoffInput: Option<string>, dispatchOwner: Option<string>, preDispatchReleased: bool,
    attemptLimit: Option<u32>, attemptsUsed: int, recovery: Option<SavedAnswer>)

  /** spend_accounts and spend_receipts, the latter in acceptance (rowid) order. */
  datatype Ledger = Ledger(used: map<string, nat>, receipts: seq<Receipt>)

  datatype LedgerError =
    | Storage | Conflict | InvocationCompleted | AttemptBudgetExhausted | SpendBudgetExhausted

  /** What the job store says about a saved answer: erased, and an optional deadline. */
  datatype JobPolicy = JobPolicy(erased: bool, deadline: Option<int>)

  // ---- Egress registry ----------------------------------------------------------

  datatype GrantKey = GrantKey(tenant: string, incarnation: string)

  datatype InvocationKey = InvocationKey(
    tenant: string, incarnation: string, jobQueue: Option<string>, invocationId: string)

  /** A signed attempt. `content` stands for every field that identifies caller, provider
      and input; the others are the ones the registry reads. */
  datatype Attempt = Attempt(
    invocation: InvocationKey, ordinal: nat, recordSequence: nat, recordedAt: nat,
    expiresAt: nat, recoveryExpiresAt: nat, grantRevision: nat, content: string)
  {
    function Grant(): GrantKey {
      GrantKey(invocation.tenant, invocation.incarnation)
    }

    /** The immutable part: renewable authority and ordinals are excluded. */
    function Binding(): Attempt {
      this.(ordinal := 0, recordSequence := 0, recordedAt := 0, expiresAt := 0, grantRevision := 0)
    }
  }

  datatype DispatchStatus = Succeeded | ProviderFailed | CredentialUnavailable

  datatype StoredReceipt = StoredReceipt(status: DispatchStatus, reference: string)

  datatype DispatchReceipt = DispatchReceipt(
    attempt: Attempt, stored: StoredReceipt, usage: Usage, spendState: SpendState)

  /** A finished dispatch: `failed` when it carries an error, `answer` when it carries output. */
  datatype DispatchResult = DispatchResult(receipt: DispatchReceipt, failed: bool, answer: Option<string>)

  datatype Completion = InFlight | Recoverable | WithoutAnswer

  /** One row of egress_permits. */
  datatype Permit = Permit(
    attempt: Attempt, token: string, acceptedAttempts: nat, consumed: bool,
    finished: Completion, result: Option<DispatchResult>, receipt: Option<StoredReceipt>,
    requestKey: Option<string>)

  /** One row of egress_request_failures. */
  datatype Failure = Failure(failedSends: nat, lastFailure: nat)

  /** Attempts per cohort and the renewal interval; no interval never renews. */
  datatype BudgetPolicy = BudgetPolicy(attempts: nat, renewalSeconds: Option<nat>)

  /** A committed debit: its key and the state that existed before it. */
  datatype BudgetAdmission = BudgetAdmission(key: string, previous: Option<Failure>)

  datatype AnswerRecovery = Retain | Off

  datatype AttemptStatus =
    | NotIssued
    | Permitted
    | Invalidated
    | Dispatched(receipt: DispatchReceipt)
    | FinishedWithoutAnswer(receipt: DispatchReceipt)
    | Completed(result: DispatchResult)
    | Failed(result: DispatchResult)
    | Expired

  datatype EgressError =
    | InvalidRequest | RouteRefused | PermitRefused | AuthorityExpired | ReconciliationRequired
    | InvocationComplete | BudgetRefused | RequestBudgetExhausted | StateUnavailable

  /** The whole operational database. */
  datatype Store = Store(
    ledger: Ledger, permits: seq<Permit>, revisions: map<GrantKey, nat>,
    failures: map<string, Failure>)

  const EMPTY_STORE := Store(Ledger(map[], []), [], map[], map[])
}
