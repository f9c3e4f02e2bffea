/** The renewable failure budget of one request key: how an admission debits it and how
    completion settles the debit. */
module RequestBudget {
  import opened Tables
  import opened Records

  /** A positive interval renews only when the clock has moved that far past the last
      failure; zero renews on every call, even after the clock moved back. */
  predicate Renewed(policy: BudgetPolicy, row: Failure, now: nat) {
    && policy.renewalSeconds.Some?
    && (policy.renewalSeconds.value == 0
        || (now >= row.lastFailure && now - row.lastFailure >= policy.renewalSeconds.value))
  }

  /** The cohort an admission at `now` still counts against. */
  function LiveCohort(policy: BudgetPolicy, row: Option<Failure>, now: nat): Option<Failure> {
    if row.Some? && !Renewed(policy, row.value, now) then row else None
  }

  /** Failures counted against an admission at `now`. */
  function Spent(policy: BudgetPolicy, row: Option<Failure>, now: nat): nat {
    match LiveCohort(policy, row, now)
    case None => 0
    case Some(f) => f.failedSends
  }

  /** Debit one send; returns the new row and the live state before it. */
  function Debit(policy: BudgetPolicy, row: Option<Failure>, now: nat)
    : Result<(Failure, Option<Failure>), EgressError>
  {
    var previous := LiveCohort(policy, row, now);
    :- Need(Spent(policy, row, now) < policy.attempts, RequestBudgetExhausted);
    var last :=
      if previous.Some? && previous.value.lastFailure > now then previous.value.lastFailure else now;
    Ok((Failure(Spent(policy, row, now) + 1, last), previous))
  }

  /** How a debited send ended. */
  datatype Settlement = Success | PreSendFailure | RecordedFailure

  /** The row after completion. Only a pre-send failure restores the previous state. */
  function Settle(row: Option<Failure>, previous: Option<Failure>, outcome: Settlement, now: nat)
    : Option<Failure>
  {
    match outcome
    case Success => None
    case PreSendFailure => if previous.Some? && row.Some? then previous else None
    case RecordedFailure =>
      if row.None? then None
      else Some(row.value.(lastFailure := if row.value.lastFailure > now then row.value.lastFailure else now))
  }
}
