/** What holds in every run of the operational database, whatever the clock does. */
module RunTheorems {
  import opened Tables
  import opened Records
  import opened SpendLedger
  import opened LedgerInvariants
  import opened LedgerSteps
  import opened Registry
  import opened RegistryInvariants
  import opened RegistrySteps
  import opened Runs

  // ---- Permits ------------------------------------------------------------------

  /** Every consumed permit with a successor is Released and was not a success, so at most
      one consumed permit of an invocation is ever unreleased. */
  lemma RetriesFollowReleases(events: seq<Event>)
    ensures var s := Run(EMPTY_STORE, events);
            && (forall i, j | 0 <= i < j < |s.permits| && s.permits[i].consumed
                              && s.permits[i].attempt.invocation == s.permits[j].attempt.invocation ::
                  IsReleased(s.ledger, s.permits[i]) && s.permits[i].receipt.value.status != Succeeded)
            && (forall i, j | 0 <= i < |s.permits| && 0 <= j < |s.permits|
                              && s.permits[i].attempt.invocation == s.permits[j].attempt.invocation
                              && s.permits[i].consumed && !IsReleased(s.ledger, s.permits[i])
                              && s.permits[j].consumed && !IsReleased(s.ledger, s.permits[j]) ::
                  i == j)
  {
    hide LedgerInv, IsReleased;
    Reachable(events);
    var s := Run(EMPTY_STORE, events);
    forall i, j | 0 <= i < j < |s.permits| && s.permits[i].consumed
                  && s.permits[i].attempt.invocation == s.permits[j].attempt.invocation
      ensures IsReleased(s.ledger, s.permits[i]) && s.permits[i].receipt.value.status != Succeeded
    {
      SuccessionHolds(s);
      assert Supersedes(s.ledger, s.permits[i], s.permits[j]);
    }
  }

  /** Issue order is ordinal order, and the latest permit counts the consumed ones. */
  lemma LatestPermitCountsConsumed(events: seq<Event>, invocation: InvocationKey)
    ensures var s := Run(EMPTY_STORE, events);
            var latest := LatestPermit(s.permits, invocation);
            Count(s.permits, ConsumedIn(invocation))
            == if latest.Some? then s.permits[latest.value].acceptedAttempts else 0
  {
    Reachable(events);
    CarriedAllowance(Run(EMPTY_STORE, events), invocation);
  }

  /** Direct acceptance consumes exactly one permit and stays within the route's allowance. */
  lemma ConsumeWithinAllowance(events: seq<Event>, a: Attempt, token: string, handoff: Handoff,
                               maxAttempts: nat, now: nat)
    ensures var s := Run(EMPTY_STORE, events);
            var result := Consume(s, a, token, handoff, maxAttempts, now);
            result.Ok? ==>
              && Count(result.value.permits, ConsumedIn(a.invocation))
                 == Count(s.permits, ConsumedIn(a.invocation)) + 1
              && Count(result.value.permits, ConsumedIn(a.invocation)) <= maxAttempts
  {
    var s := Run(EMPTY_STORE, events);
    var result := Consume(s, a, token, handoff, maxAttempts, now);
    Reachable(events);
    if result.Ok? {
      AcceptWithinAllowance(s, a, token, handoff.reservation.reference, maxAttempts, now);
    }
  }

  lemma AcceptWithinAllowance(s: Store, a: Attempt, token: string, reference: string,
                              maxAttempts: nat, now: nat)
    requires StoreInv(s) && AcceptIn(s, a, token, reference, maxAttempts, now).Ok?
    ensures var permits := AcceptIn(s, a, token, reference, maxAttempts, now).value.permits;
            && Count(permits, ConsumedIn(a.invocation)) == Count(s.permits, ConsumedIn(a.invocation)) + 1
            && Count(permits, ConsumedIn(a.invocation)) <= maxAttempts
  {
    hide LedgerInv;
    var i := FindLast(s.permits, Pending(a, token)).value;
    var permits := AcceptIn(s, a, token, reference, maxAttempts, now).value.permits;
    assert Pending(a, token)(s.permits[i]);
    AcceptedIsLatest(s, i);
    CountUpdate(s.permits, i, permits[i], ConsumedIn(a.invocation));
  }

  lemma AcceptJobInWithinAllowance(s: Store, a: Attempt, reference: string, maxAttempts: nat, at: Clock,
                                   token: string)
    requires StoreInv(s)
    ensures var result := AcceptJobIn(s, a, reference, maxAttempts, at, token);
            result.Ok? ==>
              && Count(result.value.permits, ConsumedIn(a.invocation))
                 == Count(s.permits, ConsumedIn(a.invocation)) + 1
              && Count(result.value.permits, ConsumedIn(a.invocation)) <= maxAttempts
  {
    hide LedgerInv, RegistryInv, AcceptIn, IssueIn, FindLast, StoreAdvances, Count;
    var result := AcceptJobIn(s, a, reference, maxAttempts, at, token);
    if result.Ok? {
      var existing := Newest(s.permits, AtOrdinal(a.invocation, a.ordinal));
      if existing.Some? {
        AcceptWithinAllowance(s, a, existing.value.token, reference, maxAttempts, at.third);
      } else {
        IssueShape(s, a, maxAttempts, at, token);
        IssueKeeps(s, a, maxAttempts, at, token);
        var issued := IssueIn(s, a, maxAttempts, at, token).value;
        CountAppend(s.permits, issued.permits[|s.permits|], ConsumedIn(a.invocation));
        AcceptWithinAllowance(issued, a, token, reference, maxAttempts, at.third);
      }
    }
  }

  /** A job acceptance also consumes exactly one permit within the allowance. */
  lemma AcceptJobWithinAllowance(events: seq<Event>, a: Attempt, r: Reservation, attemptLimit: u32,
                                 maxAttempts: nat, at: Clock, token: string)
    ensures var s := Run(EMPTY_STORE, events);
            var result := AcceptJob(s, a, r, attemptLimit, maxAttempts, at, token);
            result.Ok? ==>
              && Count(result.value.permits, ConsumedIn(a.invocation))
                 == Count(s.permits, ConsumedIn(a.invocation)) + 1
              && Count(result.value.permits, ConsumedIn(a.invocation)) <= maxAttempts
  {
    hide LedgerInv, RegistryInv, Reserve, AcceptJobIn, StoreAdvances, Advances, Count, Run;
    var s := Run(EMPTY_STORE, events);
    Reachable(events);
    ReserveKeeps(s.ledger, r, Some(attemptLimit), None);
    var reserved := Reserve(s.ledger, r, Some(attemptLimit), None);
    if reserved.Ok? {
      LedgerKeeps(s, reserved.value.1);
      AcceptJobInWithinAllowance(s.(ledger := reserved.value.1), a, r.reference, maxAttempts, at, token);
    }
  }

  /** Every consumed permit has exactly one ledger receipt, shared with no other permit. */
  lemma OneReceiptPerDispatch(events: seq<Event>)
    ensures var s := Run(EMPTY_STORE, events);
            && (forall i | 0 <= i < |s.permits| && s.permits[i].consumed ::
                  && s.permits[i].receipt.Some?
                  && Count(s.ledger.receipts, HasReference(s.permits[i].receipt.value.reference)) == 1)
            && (forall i, j | 0 <= i < j < |s.permits| && s.permits[i].consumed && s.permits[j].consumed
                              && s.permits[i].receipt.Some? && s.permits[j].receipt.Some? ::
                  s.permits[i].receipt.value.reference != s.permits[j].receipt.value.reference)
  {
    Reachable(events);
    var s := Run(EMPTY_STORE, events);
    forall i | 0 <= i < |s.permits| && s.permits[i].consumed
      ensures s.permits[i].receipt.Some?
      ensures Count(s.ledger.receipts, HasReference(s.permits[i].receipt.value.reference)) == 1
    {
      PermitHolds(s, i);
      var k := ReceiptIndex(s.ledger, s.permits[i].receipt.value.reference).value;
      assert HasReference(s.permits[i].receipt.value.reference)(s.ledger.receipts[k]);
      CountUnique(s.ledger.receipts, k, HasReference(s.permits[i].receipt.value.reference));
    }
  }

  lemma {:induction false} CountUnique<T>(rows: seq<T>, k: nat, p: T -> bool)
    requires k < |rows| && p(rows[k])
    requires forall i | 0 <= i < |rows| && i != k :: !p(rows[i])
    ensures Count(rows, p) == 1
  {
    var last := |rows| - 1;
    if k == last {
      CountZero(rows[..last], p);
    } else {
      CountUnique(rows[..last], k, p);
    }
  }

  /** A permit is consumed at most once: no later run can consume that attempt again. */
  lemma ConsumedForGood(events: seq<Event>, later: seq<Event>, i: nat, token: string, handoff: Handoff,
                        r: Reservation, attemptLimit: u32, maxAttempts: nat, at: Clock)
    requires var s := Run(EMPTY_STORE, events); i < |s.permits| && s.permits[i].consumed
    ensures var a := Run(EMPTY_STORE, events).permits[i].attempt;
            var s' := Run(Run(EMPTY_STORE, events), later);
            && Consume(s', a, token, handoff, maxAttempts, at.first).Err?
            && AcceptJob(s', a, r, attemptLimit, maxAttempts, at, token).Err?
  {
    hide LedgerInv, RegistryInv, Run, Consume, AcceptJob;
    var s := Run(EMPTY_STORE, events);
    var s' := Run(s, later);
    Reachable(events);
    RunKeeps(s, later);
    assert PermitEvolves(s.permits[i], s'.permits[i]);
    NeverAgain(s', i, token);
    ConsumeNeedsPending(s', s.permits[i].attempt, token, handoff, maxAttempts, at.first);
    JobRefused(s', i, r, attemptLimit, maxAttempts, at, token);
  }

  lemma ConsumeNeedsPending(s: Store, a: Attempt, token: string, handoff: Handoff, maxAttempts: nat, now: nat)
    requires FindLast(s.permits, Pending(a, token)).None?
    ensures Consume(s, a, token, handoff, maxAttempts, now).Err?
  {
  }

  lemma JobRefused(s: Store, i: nat, r: Reservation, attemptLimit: u32, maxAttempts: nat, at: Clock,
                   token: string)
    requires StoreInv(s) && i < |s.permits| && s.permits[i].consumed
    ensures AcceptJob(s, s.permits[i].attempt, r, attemptLimit, maxAttempts, at, token).Err?
  {
    hide LedgerInv, RegistryInv, IssueIn, Reserve;
    var a := s.permits[i].attempt;
    var existing := FindLast(s.permits, AtOrdinal(a.invocation, a.ordinal));
    assert AtOrdinal(a.invocation, a.ordinal)(s.permits[i]);
    NeverAgain(s, i, s.permits[existing.value].token);
  }

  lemma NeverAgain(s: Store, i: nat, token: string)
    requires StoreInv(s) && i < |s.permits| && s.permits[i].consumed
    ensures FindLast(s.permits, Pending(s.permits[i].attempt, token)).None?
  {
    hide LedgerInv;
    var found := FindLast(s.permits, Pending(s.permits[i].attempt, token));
    if found.Some? {
      assert Pending(s.permits[i].attempt, token)(s.permits[found.value]);
      SameAttempt(s, i, found.value);
    }
  }

  /** At most one send per request key is in flight with an Unknown charge. */
  lemma OneUncertainSend(events: seq<Event>, key: string)
    ensures var s := Run(EMPTY_STORE, events);
            forall i, j | 0 <= i < |s.permits| && 0 <= j < |s.permits|
                          && Uncertain(s.ledger, s.permits[i], key)
                          && Uncertain(s.ledger, s.permits[j], key) ::
              i == j
  {
    Reachable(events);
  }

  // ---- Completions --------------------------------------------------------------

  /** The ledger receipt of the attempt in flight. */
  function InFlightReceipt(s: Store, a: Attempt): Option<Receipt> {
    match HandedOut(s, a)
    case None => None
    case Some(handed) =>
      match ReceiptIndex(s.ledger, handed.stored.reference)
      case None => None
      case Some(i) => Some(s.ledger.receipts[i])
  }

  /** What recording makes of an arbitrary usage, for an attempt still Unknown: it is refused
      exactly when answers are off and the only measurement is an invalid cost, because that
      cost is dropped before a settlement that needs a measurement. */
  lemma AnswerRecordedExactlyWhen(events: seq<Event>, a: Attempt, answer: string, usage: Usage, accepted: bool,
                                  mode: AnswerRecovery, budget: Option<BudgetAdmission>, at: Clock)
    requires var receipt := InFlightReceipt(Run(EMPTY_STORE, events), a);
             receipt.Some? && receipt.value.state == Unknown
    ensures Complete(Run(EMPTY_STORE, events), a, Answered(answer, usage, accepted), mode, budget, at).Ok?
       <==> !(mode == Off && !usage.metered && usage.cost == InvalidCost)
  {
    hide Run, FindLast, WithLedger, FinishedPermit, SettledBudget;
  }

  /** No adapter observes such a usage: every provider answer to an attempt still Unknown is
      recorded, in every mode and whatever cost the provider states. It settles exactly when
      something usable was measured, and otherwise stays Unknown with its evidence. */
  lemma ProviderAnswerRecorded(events: seq<Event>, a: Attempt, answer: string, raw: RawUsage, accepted: bool,
                               mode: AnswerRecovery, budget: Option<BudgetAdmission>, at: Clock)
    requires var receipt := InFlightReceipt(Run(EMPTY_STORE, events), a);
             receipt.Some? && receipt.value.state == Unknown
    ensures var s := Run(EMPTY_STORE, events);
            var result := Complete(s, a, Answered(answer, Observed(raw), accepted), mode, budget, at);
            && result.Ok? && HandedOut(s, a).Some?
            && var i := ReceiptIndex(result.value.ledger, HandedOut(s, a).value.stored.reference);
            && i.Some?
            && var row := result.value.ledger.receipts[i.value];
            && row.state == (if raw.metered || raw.costText == ValidCost then Settled else Unknown)
            && row.output && row.usage == Some(StoredUsage(mode, Observed(raw)))
  {
    hide Run, ReceiptIndex, Finish, Complete, HandedOut, Measured;
    var s := Run(EMPTY_STORE, events);
    AnswerRecordedExactlyWhen(events, a, answer, Observed(raw), accepted, mode, budget, at);
    AnswerSettles(s, a, answer, Observed(raw), accepted, mode, budget, at);
    var state := if Measured(Observed(raw)) then Settled else Unknown;
    ObservedIsMeasured(raw);
    SettlesRow(s.ledger, HandedOut(s, a).value.stored.reference, state, StoredUsage(mode, Observed(raw)));
  }

  lemma ObservedIsMeasured(raw: RawUsage)
    ensures Measured(Observed(raw)) <==> raw.metered || raw.costText == ValidCost
  {
  }

  /** The settlement inside the completion of a provider answer. */
  lemma AnswerSettles(s: Store, a: Attempt, answer: string, usage: Usage, accepted: bool, mode: AnswerRecovery,
                      budget: Option<BudgetAdmission>, at: Clock)
    ensures var result := Complete(s, a, Answered(answer, usage, accepted), mode, budget, at);
            result.Ok? ==>
              && HandedOut(s, a).Some? && HandedOut(s, a).value.spendState == Unknown
              && Finish(s.ledger, HandedOut(s, a).value.stored.reference,
                        if Measured(usage) then Settled else Unknown, Some(StoredUsage(mode, usage)), true)
                 == Ok(result.value.ledger)
  {
    hide FindLast, WithLedger, FinishedPermit, SettledBudget, Finish, StoredUsage;
  }

  lemma SettlesRow(l: Ledger, reference: string, state: SpendState, usage: Usage)
    requires Finish(l, reference, state, Some(usage), true).Ok?
    ensures var l' := Finish(l, reference, state, Some(usage), true).value;
            var i := ReceiptIndex(l', reference);
            && i.Some? && l'.receipts[i.value].state == state
            && l'.receipts[i.value].output && l'.receipts[i.value].usage == Some(usage)
  {
    hide FindLast;
    var i := ReceiptIndex(l, reference).value;
    var l' := Finish(l, reference, state, Some(usage), true).value;
    FindLastUpdated(l.receipts, i, l'.receipts[i], HasReference(reference));
  }

  /** A failure before sending is recorded and released exactly when its receipt carries no
      output evidence, for every attempt still Unknown. */
  lemma PreSendFailureRecordedExactlyWhen(events: seq<Event>, a: Attempt, e: Execution, mode: AnswerRecovery,
                                          budget: Option<BudgetAdmission>, at: Clock)
    requires e.NoCredential? || e == Refused(false)
    requires var receipt := InFlightReceipt(Run(EMPTY_STORE, events), a);
             receipt.Some? && receipt.value.state == Unknown
    ensures Complete(Run(EMPTY_STORE, events), a, e, mode, budget, at).Ok?
       <==> !InFlightReceipt(Run(EMPTY_STORE, events), a).value.output
  {
    hide Run, FindLast, WithLedger, FinishedPermit, SettledBudget, LedgerInv, RegistryInv;
    var s := Run(EMPTY_STORE, events);
    var handed := HandedOut(s, a).value;
    AccountsConserved(events, "", handed.stored.reference, Released,
                      UsageEvidence(mode, Outcome(handed, e).0.receipt.usage, false), false);
  }

  // ---- Ledger -------------------------------------------------------------------

  /** Each account's counter is its number of unreleased receipts, and no settlement of any
      receipt can find the counter already at zero. */
  lemma AccountsConserved(events: seq<Event>, account: string, reference: string, state: SpendState,
                          usage: Option<Usage>, output: bool)
    ensures var l := Run(EMPTY_STORE, events).ledger;
            && Used(l, account) == Count(l.receipts, HeldBy(account))
            && Finish(l, reference, state, usage, output) != Err(Storage)
  {
    Reachable(events);
    FinishKeeps(Run(EMPTY_STORE, events).ledger, reference, state, usage, output);
  }

  /** An account whose reservations all carry a limit of at most `cap` never exceeds `cap`. */
  lemma AccountsWithinLimit(events: seq<Event>, account: string, cap: nat)
    requires Capped(Run(EMPTY_STORE, events).ledger.receipts, account, cap)
    ensures Used(Run(EMPTY_STORE, events).ledger, account) <= cap
  {
    Reachable(events);
  }

  /** Within one chain: one binding, at most one Unknown receipt and only as the newest; an
      explicit receipt that is not the newest is Released without output, so output evidence
      or settlement ends an explicit chain. */
  lemma ChainsEndAtCompletion(events: seq<Event>, i: nat, j: nat)
    requires i < j < |Run(EMPTY_STORE, events).ledger.receipts|
    requires var rows := Run(EMPTY_STORE, events).ledger.receipts; Chained(rows[i], rows[j])
    ensures var rows := Run(EMPTY_STORE, events).ledger.receipts;
            && rows[i].reservation.binding == rows[j].reservation.binding
            && rows[i].state != Unknown
            && (rows[i].attemptLimit.Some? ==>
                  rows[i].state == Released && !rows[i].output && rows[j].attemptLimit == rows[i].attemptLimit)
  {
    Reachable(events);
    var rows := Run(EMPTY_STORE, events).ledger.receipts;
    assert Precedes(rows[i], rows[j]);
  }

  /** An explicit attempt or a trusted handoff is accepted only after a released receipt
      without output: no second charge can follow a completed one. */
  lemma AcceptedAfterReleaseOnly(events: seq<Event>, i: nat, j: nat)
    requires Adjacent(Run(EMPTY_STORE, events).ledger.receipts, i, j)
    requires var row := Run(EMPTY_STORE, events).ledger.receipts[j];
             row.attemptLimit.Some? || row.handoffInput.Some?
    ensures var row := Run(EMPTY_STORE, events).ledger.receipts[i]; row.state == Released && !row.output
  {
    Reachable(events);
  }

  /** The newest explicit receipt counts the chain's attempts, never past the ceiling and
      never below zero. */
  lemma AttemptsWithinCeiling(events: seq<Event>, i: nat)
    requires IsNewest(Run(EMPTY_STORE, events).ledger.receipts, i)
    requires Run(EMPTY_STORE, events).ledger.receipts[i].attemptLimit.Some?
    ensures var rows := Run(EMPTY_STORE, events).ledger.receipts;
            var chain := rows[i].reservation;
            && rows[i].attemptsUsed == Count(rows, ChargedIn(chain.account, chain.invocation))
            && 0 <= rows[i].attemptsUsed <= rows[i].attemptLimit.value
  {
    Reachable(events);
    assert Tally(Run(EMPTY_STORE, events).ledger.receipts, i);
  }

  /** A resolved receipt keeps its state, usage and evidence in every later store, and no
      accepted receipt ever loses its reservation or ceiling. */
  lemma ResolvedForGood(events: seq<Event>, later: seq<Event>, i: nat)
    requires i < |Run(EMPTY_STORE, events).ledger.receipts|
    ensures var rows := Run(EMPTY_STORE, events).ledger.receipts;
            var rows' := Run(Run(EMPTY_STORE, events), later).ledger.receipts;
            && i < |rows'|
            && rows'[i].reservation == rows[i].reservation
            && rows'[i].attemptLimit == rows[i].attemptLimit
            && (rows[i].state != Unknown ==>
                  rows'[i].state == rows[i].state && rows'[i].usage == rows[i].usage
                  && rows'[i].output == rows[i].output)
  {
    Reachable(events);
    RunKeeps(Run(EMPTY_STORE, events), later);
    assert Evolves(Run(EMPTY_STORE, events).ledger.receipts[i],
                   Run(Run(EMPTY_STORE, events), later).ledger.receipts[i]);
  }

  /** A release before dispatch is for good: after every later run, releasing again is accepted
      and changes nothing, so the attempt is returned once. */
  lemma ReleasedOnce(events: seq<Event>, at: Clock, reference: string, later: seq<Event>)
    requires Release(Run(EMPTY_STORE, events).ledger, reference).Ok?
    ensures var s := Step(Run(EMPTY_STORE, events), Event(at, OpRelease(reference)));
            var l := Run(s, later).ledger;
            Release(l, reference) == Ok(l)
  {
    hide Run, RegistryInv, LedgerInv, Release, Registry.WithLedger, StoreAdvances;
    var s0 := Run(EMPTY_STORE, events);
    var s := Step(s0, Event(at, OpRelease(reference)));
    Reachable(events);
    StepKeeps(s0, Event(at, OpRelease(reference)));
    RunKeeps(s, later);
    ReleasedRow(s0.ledger, reference);
    ReleasedStays(s, Run(s, later), reference, ReceiptIndex(s0.ledger, reference).value);
  }

  /** The row a release leaves behind. */
  predicate IsReturned(r: Receipt, reference: string) {
    && r.reservation.reference == reference && r.state == Released && r.preDispatchReleased
    && r.usage.None? && !r.output
  }

  lemma ReleasedRow(l: Ledger, reference: string)
    requires LedgerInv(l) && Release(l, reference).Ok?
    ensures var l' := Release(l, reference).value;
            var i := ReceiptIndex(l, reference);
            i.Some? && i.value < |l'.receipts| && IsReturned(l'.receipts[i.value], reference)
  {
    ReleasedWithoutUsage(l, reference);
    ReleaseKeeps(l, reference);
    var i := ReceiptIndex(l, reference).value;
    assert HasReference(reference)(l.receipts[i]);
    assert RowOk(Release(l, reference).value.receipts[i]);
    hide FindLast, LedgerInv;
  }

  lemma ReleasedStays(s: Store, s': Store, reference: string, i: nat)
    requires StoreInv(s') && StoreAdvances(s, s')
    requires i < |s.ledger.receipts| && IsReturned(s.ledger.receipts[i], reference)
    ensures Release(s'.ledger, reference) == Ok(s'.ledger)
  {
    assert Evolves(s.ledger.receipts[i], s'.ledger.receipts[i]);
    IndexByReference(s'.ledger, i);
    assert RowOk(s'.ledger.receipts[i]);
    hide FindLast, LedgerInv, RegistryInv, StoreAdvances;
    assert s'.ledger.receipts[i := s'.ledger.receipts[i]] == s'.ledger.receipts;
  }

  /** Dispatch ownership is taken only while Unknown, and at most once per reference. */
  lemma AcquiredOnce(events: seq<Event>, later: seq<Event>, h: Handoff, account: string, input: string,
                     owner: string, h': Handoff, account': string, input': string, owner': string)
    requires var l := Run(EMPTY_STORE, events).ledger;
             AcquireHandoff(l, h, account, input, owner).Ok?
    requires h'.reservation.reference == h.reservation.reference
    ensures var s := Run(EMPTY_STORE, events);
            var taken := s.(ledger := AcquireHandoff(s.ledger, h, account, input, owner).value);
            && StateOf(s.ledger, h.reservation.reference) == Some(Unknown)
            && AcquireHandoff(Run(taken, later).ledger, h', account', input', owner') == Err(Conflict)
  {
    var s := Run(EMPTY_STORE, events);
    Reachable(events);
    AcquireKeeps(s.ledger, h, account, input, owner);
    var taken := s.(ledger := AcquireHandoff(s.ledger, h, account, input, owner).value);
    LedgerKeeps(s, taken.ledger);
    RunKeeps(taken, later);
    var s' := Run(taken, later);
    hide RegistryInv, Run, Conserved, WithinLimits, Chains, Fenced, AttemptsCounted;
    var i := ReceiptIndex(s.ledger, h.reservation.reference).value;
    assert HasReference(h.reservation.reference)(s.ledger.receipts[i]);
    assert Evolves(taken.ledger.receipts[i], s'.ledger.receipts[i]);
    IndexByReference(s'.ledger, i);
  }

  // ---- Saved answers ------------------------------------------------------------

  /** Once a receipt carries completion evidence its saved answer can only be narrowed or
      erased: it never changes, never comes back, and never becomes readable later than its
      deadline allowed. Before that there is no saved answer. */
  lemma SavedAnswerOnlyNarrows(events: seq<Event>, later: seq<Event>, i: nat, now: int)
    requires i < |Run(EMPTY_STORE, events).ledger.receipts|
    ensures var row := Run(EMPTY_STORE, events).ledger.receipts[i];
            var rows' := Run(Run(EMPTY_STORE, events), later).ledger.receipts;
            && i < |rows'|
            && (!row.output ==> row.recovery.None?)
            && (row.output ==>
                  && rows'[i].output
                  && (Readable(rows'[i], now).Some? ==> Readable(rows'[i], now) == Readable(row, now))
                  && (rows'[i].recovery.Some? ==>
                        && row.recovery.Some?
                        && rows'[i].recovery.value.answer == row.recovery.value.answer
                        && rows'[i].recovery.value.expiresAt <= row.recovery.value.expiresAt))
  {
    Reachable(events);
    RunKeeps(Run(EMPTY_STORE, events), later);
    var row := Run(EMPTY_STORE, events).ledger.receipts[i];
    assert RowOk(row);
    assert Evolves(row, Run(Run(EMPTY_STORE, events), later).ledger.receipts[i]);
  }
}
