/** Transactions of the egress registry as functions on the whole store. The registry and
    the ledger share one database, so a permit and its reservation commit together. */
module Registry {
  import opened Tables
  import opened Records
  import opened SpendLedger
  import opened RequestBudget
  import Expiry

  const EXPIRY_BATCH_SIZE := 64

  // ---- Lookups ------------------------------------------------------------------

  function AtOrdinal(invocation: InvocationKey, ordinal: nat): Permit -> bool {
    (p: Permit) => p.attempt.invocation == invocation && p.attempt.ordinal == ordinal
  }

  function After(invocation: InvocationKey, ordinal: nat): Permit -> bool {
    (p: Permit) => p.attempt.invocation == invocation && p.attempt.ordinal > ordinal
  }

  function ConsumedIn(invocation: InvocationKey): Permit -> bool {
    (p: Permit) => p.attempt.invocation == invocation && p.consumed
  }

  function Pending(a: Attempt, token: string): Permit -> bool {
    (p: Permit) => p.attempt == a && p.token == token && !p.consumed
  }

  function InFlightFor(a: Attempt): Permit -> bool {
    (p: Permit) => p.attempt == a && p.consumed && p.finished == InFlight
  }

  predicate Refers(p: Permit, reference: string) {
    p.receipt.Some? && p.receipt.value.reference == reference
  }

  predicate Resolved(state: Option<SpendState>) {
    state.Some? && (state.value.Released? || state.value.Settled?)
  }

  predicate Outstanding(p: Permit) {
    p.consumed && p.finished == InFlight
  }

  /** Live permits bound to a key whose ledger state is not resolved. */
  function UnresolvedFor(l: Ledger, key: string): Permit -> bool {
    (p: Permit) =>
      && p.requestKey == Some(key) && Outstanding(p)
      && (p.receipt.Some? ==> !Resolved(StateOf(l, p.receipt.value.reference)))
  }

  /** The permit with the greatest ordinal of an invocation. */
  function LatestPermit(permits: seq<Permit>, invocation: InvocationKey): (r: Option<nat>)
    ensures r.Some? ==>
              && r.value < |permits|
              && permits[r.value].attempt.invocation == invocation
              && (forall i | 0 <= i < |permits| && permits[i].attempt.invocation == invocation ::
                    permits[i].attempt.ordinal <= permits[r.value].attempt.ordinal)
    ensures r.None? ==>
              forall i | 0 <= i < |permits| :: permits[i].attempt.invocation != invocation
  {
    if permits == [] then None
    else
      var last := |permits| - 1;
      var earlier := LatestPermit(permits[..last], invocation);
      if permits[last].attempt.invocation == invocation
         && (earlier.None? || permits[earlier.value].attempt.ordinal <= permits[last].attempt.ordinal)
      then Some(last)
      else earlier
  }

  predicate Superseded(permits: seq<Permit>, a: Attempt) {
    FindLast(permits, After(a.invocation, a.ordinal)).Some?
  }

  predicate CurrentRevision(s: Store, a: Attempt) {
    a.Grant() in s.revisions && s.revisions[a.Grant()] == a.grantRevision
  }

  // ---- Issue and publish --------------------------------------------------------

  /** What the latest permit of an invocation allows a successor to inherit. */
  function Succeed(s: Store, previous: Permit, a: Attempt, now: nat): Result<nat, EgressError> {
    var carried := previous.acceptedAttempts;
    :- Need(previous.attempt.Binding() == a.Binding(), InvalidRequest);
    :- Need(a.ordinal > previous.attempt.ordinal, PermitRefused);
    :- Need(a.recordSequence > previous.attempt.recordSequence, InvalidRequest);
    // A pending permit whose revision changed or authority expired needs no receipt.
    if !previous.consumed
       && !(previous.attempt.grantRevision == a.grantRevision && now < previous.attempt.expiresAt)
    then Ok(carried)
    else
      :- Need(previous.receipt.Some?, ReconciliationRequired);
      :- Need(previous.receipt.value.status != Succeeded, InvocationComplete);
      :- Need(StateOf(s.ledger, previous.receipt.value.reference) == Some(Released),
              ReconciliationRequired);
      Ok(carried)
  }

  /** The transaction of an issue: the look-up of a permit already issued comes before it, reads
      only, and lets other transactions in between. */
  function IssueIn(s: Store, a: Attempt, maxAttempts: nat, at: Clock, token: string)
    : Result<Store, EgressError>
  {
    var latest := LatestPermit(s.permits, a.invocation);
    :- Need(CurrentRevision(s, a), RouteRefused);
    var carried :- if latest.None? then Ok(0) else Succeed(s, s.permits[latest.value], a, at.first);
    :- Need(carried < maxAttempts, BudgetRefused);
    :- Need(at.second < a.expiresAt, AuthorityExpired);
    Ok(s.(permits := s.permits + [Permit(a, token, carried, false, InFlight, None, None, None)]))
  }

  function Publish(s: Store, grant: GrantKey, revision: nat): Result<Store, EgressError> {
    var stale := grant in s.revisions && s.revisions[grant] > revision;
    :- Need(!stale, RouteRefused);
    Ok(s.(revisions := s.revisions[grant := revision]))
  }

  // ---- Accept -------------------------------------------------------------------

  /** Consume a permit for one ledger reference. */
  function AcceptIn(s: Store, a: Attempt, token: string, reference: string, maxAttempts: nat, now: nat)
    : Result<Store, EgressError>
  {
    var found := FindLast(s.permits, Pending(a, token));
    :- Need(found.Some?, PermitRefused);
    var p := s.permits[found.value];
    :- Need(CurrentRevision(s, a), RouteRefused);
    :- Need(!Superseded(s.permits, a), PermitRefused);
    :- Need(p.acceptedAttempts < maxAttempts, BudgetRefused);
    :- Need(now < a.expiresAt, AuthorityExpired);
    var accepted := p.(consumed := true, receipt := Some(StoredReceipt(ProviderFailed, reference)),
                       acceptedAttempts := p.acceptedAttempts + 1);
    Ok(s.(permits := s.permits[found.value := accepted]))
  }

  function LedgerRefusal(e: LedgerError): EgressError {
    match e
    case AttemptBudgetExhausted => BudgetRefused
    case SpendBudgetExhausted => BudgetRefused
    case Conflict => ReconciliationRequired
    case _ => StateUnavailable
  }

  /** Direct dispatch: consume the permit, then reserve its handoff, or neither. */
  function Consume(s: Store, a: Attempt, token: string, handoff: Handoff, maxAttempts: nat, now: nat)
    : Result<Store, EgressError>
  {
    var s1 :- AcceptIn(s, a, token, handoff.reservation.reference, maxAttempts, now);
    match ReserveHandoff(s1.ledger, handoff)
    case Err(e) => Err(LedgerRefusal(e))
    case Ok((accepted, l)) => if accepted then Ok(s1.(ledger := l)) else Err(PermitRefused)
  }

  /** Issue the attempt's permit unless it exists, then consume it. */
  function AcceptJobIn(s: Store, a: Attempt, reference: string, maxAttempts: nat, at: Clock, token: string)
    : Result<Store, EgressError>
  {
    match Newest(s.permits, AtOrdinal(a.invocation, a.ordinal))
    case Some(p) =>
      :- Need(p.attempt == a, PermitRefused);
      AcceptIn(s, a, p.token, reference, maxAttempts, at.third)
    case None =>
      var issued :- IssueIn(s, a, maxAttempts, at, token);
      AcceptIn(issued, a, token, reference, maxAttempts, at.third)
  }

  /** Job dispatch: reserve under the job's ceiling and consume the permit, or neither. */
  function AcceptJob(s: Store, a: Attempt, r: Reservation, attemptLimit: u32, maxAttempts: nat,
                     at: Clock, token: string): Result<Store, EgressError>
  {
    match Reserve(s.ledger, r, Some(attemptLimit), None)
    case Err(e) => Err(LedgerRefusal(e))
    case Ok((accepted, l)) =>
      :- Need(accepted, StateUnavailable);
      AcceptJobIn(s.(ledger := l), a, r.reference, maxAttempts, at, token)
  }

  // ---- Request binding ----------------------------------------------------------

  /** Clear the request key of every live permit that refers to `reference`. */
  function Retire(permits: seq<Permit>, reference: string): (r: seq<Permit>)
    ensures |r| == |permits|
    ensures forall i | 0 <= i < |permits| ::
              r[i] == if Outstanding(permits[i]) && Refers(permits[i], reference)
                      then permits[i].(requestKey := None) else permits[i]
  {
    if permits == [] then []
    else
      var last := permits[|permits| - 1];
      Retire(permits[..|permits| - 1], reference)
      + [if Outstanding(last) && Refers(last, reference) then last.(requestKey := None) else last]
  }

  /** Commit new ledger tables; the trigger retires bindings when the receipt resolves. */
  function WithLedger(s: Store, reference: string, l: Ledger): (r: Store)
    ensures r.ledger == l && r.revisions == s.revisions && r.failures == s.failures
    ensures |r.permits| == |s.permits|
    ensures forall i | 0 <= i < |s.permits| ::
              r.permits[i] == s.permits[i]
              || (Outstanding(s.permits[i]) && r.permits[i] == s.permits[i].(requestKey := None))
  {
    if StateOf(s.ledger, reference) == Some(Unknown)
       && Resolved(StateOf(l, reference))
    then s.(ledger := l, permits := Retire(s.permits, reference))
    else s.(ledger := l)
  }

  /** Bind a consumed attempt to its request before it is sent, with an optional debit. */
  function Admit(s: Store, a: Attempt, key: string, policy: Option<BudgetPolicy>, now: nat)
    : Result<(Store, Option<BudgetAdmission>), EgressError>
  {
    var unresolved := Newest(s.permits, UnresolvedFor(s.ledger, key));
    if unresolved.Some? then
      Err(if unresolved.value.receipt.Some?
             && StateOf(s.ledger, unresolved.value.receipt.value.reference).Some?
          then ReconciliationRequired else StateUnavailable)
    else
      var found := FindLast(s.permits, InFlightFor(a));
      :- Need(found.Some? && s.permits[found.value].requestKey.None?, PermitRefused);
      var s1 := s.(permits := s.permits[found.value := s.permits[found.value].(requestKey := Some(key))]);
      if policy.None? then Ok((s1, None))
      else
        var row := if key in s.failures then Some(s.failures[key]) else None;
        var (debited, previous) :- Debit(policy.value, row, now);
        Ok((s1.(failures := s.failures[key := debited]), Some(BudgetAdmission(key, previous))))
  }

  // ---- Completion ---------------------------------------------------------------

  /** With answers off, provider text and an invalid cost are not stored. */
  function StoredUsage(mode: AnswerRecovery, u: Usage): Usage {
    if mode == Off
    then u.(identity := "", cost := if u.cost == InvalidCost then NoCost else u.cost)
    else u
  }

  function SettledBudget(failures: map<string, Failure>, budget: BudgetAdmission,
                         outcome: Settlement, now: nat): map<string, Failure>
  {
    var row := if budget.key in failures then Some(failures[budget.key]) else None;
    match Settle(row, budget.previous, outcome, now)
    case None => failures - {budget.key}
    case Some(f) => failures[budget.key := f]
  }

  /** The permit row a completion writes. */
  function FinishedPermit(p: Permit, result: DispatchResult, mode: AnswerRecovery, now: nat): Permit {
    p.(receipt := Some(result.receipt.stored), requestKey := None,
       finished := if mode == Off then WithoutAnswer else Recoverable,
       result := if mode == Retain && p.attempt.recoveryExpiresAt > now then Some(result) else None)
  }

  /** Usage is kept with an output, or when anything was measured. */
  function UsageEvidence(mode: AnswerRecovery, usage: Usage, outputReceived: bool): Option<Usage> {
    if outputReceived || Measured(usage) then Some(StoredUsage(mode, usage)) else None
  }

  /** Record a finished dispatch: permit, ledger and budget in one transaction. */
  function FinishDispatch(s: Store, mode: AnswerRecovery, result: DispatchResult,
                          budget: Option<BudgetAdmission>, outputReceived: bool, at: Clock)
    : Result<Store, EgressError>
  {
    var receipt := result.receipt;
    var found := FindLast(s.permits, InFlightFor(receipt.attempt));
    :- Need(found.Some?, StateUnavailable);
    var finished := FinishedPermit(s.permits[found.value], result, mode, at.first);
    match Finish(s.ledger, receipt.stored.reference, receipt.spendState,
                 UsageEvidence(mode, receipt.usage, outputReceived), outputReceived)
    case Err(e) => Err(LedgerRefusal(e))
    case Ok(l) =>
      var s1 := s.(permits := s.permits[found.value := finished]);
      var s2 := WithLedger(s1, receipt.stored.reference, l);
      if budget.None? then Ok(s2)
      else
        var outcome :=
          if result.answer.Some? then Success
          else if receipt.spendState == Released then PreSendFailure
          else RecordedFailure;
        Ok(s2.(failures := SettledBudget(s2.failures, budget.value, outcome, at.second)))
  }

  /** What a raw provider response says about usage, before an adapter reads it. */
  datatype RawUsage = RawUsage(metered: bool, costText: CostReport, identity: string)

  /** The usage an adapter observes: a cost text that is not a finite amount is no cost at all. */
  function Observed(raw: RawUsage): Usage {
    Usage(raw.metered, if raw.costText == ValidCost then ValidCost else NoCost, raw.identity)
  }

  /** How the provider call of a dispatch ended. */
  datatype Execution =
    | NoCredential
    | Refused(mayHaveDispatched: bool)
    | Answered(answer: string, usage: Usage, accepted: bool)

  /** The result a dispatch records for the receipt it was handed, and whether output arrived. */
  function Outcome(receipt: DispatchReceipt, e: Execution): (DispatchResult, bool) {
    match e
    case NoCredential =>
      var r := receipt.(stored := receipt.stored.(status := CredentialUnavailable), spendState := Released);
      (DispatchResult(r, true, None), false)
    case Refused(mayHaveDispatched) =>
      var r := if mayHaveDispatched then receipt else receipt.(spendState := Released);
      (DispatchResult(r, true, None), false)
    case Answered(answer, usage, accepted) =>
      var state := if Measured(usage) then Settled else receipt.spendState;
      var status := if accepted then Succeeded else ProviderFailed;
      var r := receipt.(usage := usage, spendState := state, stored := receipt.stored.(status := status));
      (DispatchResult(r, !accepted, if accepted then Some(answer) else None), true)
  }

  /** The receipt `Consume` handed out for an attempt that is still in flight. */
  function HandedOut(s: Store, a: Attempt): Option<DispatchReceipt> {
    match Newest(s.permits, InFlightFor(a))
    case Some(p) =>
      if p.receipt.Some? then Some(DispatchReceipt(a, p.receipt.value, Usage(false, NoCost, ""), Unknown))
      else None
    case None => None
  }

  /** One dispatch task from its execution to its completion transaction. */
  function Complete(s: Store, a: Attempt, e: Execution, mode: AnswerRecovery,
                    budget: Option<BudgetAdmission>, at: Clock): Result<Store, EgressError>
  {
    var handed := HandedOut(s, a);
    :- Need(handed.Some?, StateUnavailable);
    var (result, outputReceived) := Outcome(handed.value, e);
    FinishDispatch(s, mode, result, budget, outputReceived, at)
  }

  // ---- Status -------------------------------------------------------------------

  function ProjectReceipt(s: Store, a: Attempt, r: StoredReceipt): Result<DispatchReceipt, EgressError> {
    var found := ReceiptIndex(s.ledger, r.reference);
    :- Need(found.Some?, StateUnavailable);
    var row := s.ledger.receipts[found.value];
    var usage := if row.usage.Some? then row.usage.value else Usage(false, NoCost, "");
    Ok(DispatchReceipt(a, r, usage, row.state))
  }

  function StatusOf(s: Store, p: Permit, now: nat): Result<AttemptStatus, EgressError> {
    if !p.consumed then
      Ok(if !Superseded(s.permits, p.attempt) && CurrentRevision(s, p.attempt) && now < p.attempt.expiresAt
         then Permitted else Invalidated)
    else if p.finished == InFlight then
      :- Need(p.receipt.Some?, StateUnavailable);
      var r :- ProjectReceipt(s, p.attempt, p.receipt.value);
      Ok(Dispatched(r))
    else if p.finished == WithoutAnswer then
      :- Need(p.receipt.Some?, StateUnavailable);
      var r :- ProjectReceipt(s, p.attempt, p.receipt.value);
      Ok(FinishedWithoutAnswer(r))
    else if now >= p.attempt.recoveryExpiresAt then Ok(Expired)
    else
      :- Need(p.result.Some?, StateUnavailable);
      var r :- ProjectReceipt(s, p.attempt, p.result.value.receipt.stored);
      var result := p.result.value.(receipt := r);
      Ok(if result.failed then Failed(result) else Completed(result))
  }

  /** The status of one attempt identity at `now`. */
  function StatusAt(s: Store, invocation: InvocationKey, ordinal: nat, now: nat)
    : Result<AttemptStatus, EgressError>
  {
    match Newest(s.permits, AtOrdinal(invocation, ordinal))
    case None => Ok(NotIssued)
    case Some(p) => if p.attempt.Grant() in s.revisions then StatusOf(s, p, now) else Ok(NotIssued)
  }

  // ---- Expiry -------------------------------------------------------------------

  function ResultDeadlines(permits: seq<Permit>): seq<Option<int>> {
    seq(|permits|, i requires 0 <= i < |permits| =>
      if permits[i].result.Some? then Some(permits[i].attempt.recoveryExpiresAt as int) else None)
  }

  function WithoutResults(permits: seq<Permit>, batch: set<int>): seq<Permit> {
    seq(|permits|, i requires 0 <= i < |permits| =>
      if i in batch then permits[i].(result := None) else permits[i])
  }

  /** Remove at most one batch of results whose recovery deadline has passed. */
  function PurgeResults(s: Store, now: nat): Store {
    s.(permits := WithoutResults(s.permits,
         Expiry.Batch(ResultDeadlines(s.permits), now, EXPIRY_BATCH_SIZE)))
  }
}
