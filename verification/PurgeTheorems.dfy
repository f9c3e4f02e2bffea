/** Result purges over whole runs: adding, removing or moving them changes no status that is read
    at or after their times. */
module PurgeTheorems {
  import opened Tables
  import opened Records
  import opened SpendLedger
  import opened Registry
  import opened RegistrySteps
  import opened Runs
  import opened StatusTheorems
  import Expiry
  import RequestBudget

  // ---- Stores that differ in expired results ------------------------------------

  /** The same permit, except that either side may lack a result whose deadline has passed. */
  predicate PermitAlike(p: Permit, q: Permit, now: nat) {
    && q == p.(result := q.result)
    && (p.result == q.result || p.attempt.recoveryExpiresAt <= now)
  }

  ghost predicate PermitsAlike(ps: seq<Permit>, qs: seq<Permit>, now: nat) {
    |ps| == |qs| && forall i | 0 <= i < |ps| :: PermitAlike(ps[i], qs[i], now)
  }

  ghost predicate Alike(s: Store, t: Store, now: nat) {
    && t == s.(permits := t.permits)
    && PermitsAlike(s.permits, t.permits, now)
  }

  ghost predicate OutcomesAlike(r: Result<Store, EgressError>, q: Result<Store, EgressError>, now: nat) {
    if r.Ok? then q.Ok? && Alike(r.value, q.value, now) else r == q
  }

  // ---- No look-up reads a result ------------------------------------------------

  ghost predicate IgnoresResult(p: Permit -> bool) {
    forall q: Permit, result :: p(q.(result := result)) == p(q)
  }

  lemma SameFound(ps: seq<Permit>, qs: seq<Permit>, p: Permit -> bool, now: nat)
    requires PermitsAlike(ps, qs, now) && IgnoresResult(p)
    ensures FindLast(ps, p) == FindLast(qs, p)
  {
    forall i | 0 <= i < |ps|
      ensures p(ps[i]) == p(qs[i])
    {
      assert PermitAlike(ps[i], qs[i], now);
    }
    SameFind(ps, qs, p);
  }

  lemma LookupsIgnoreResults(a: Attempt, token: string, l: Ledger, key: string, ordinal: nat)
    ensures IgnoresResult(Pending(a, token)) && IgnoresResult(InFlightFor(a))
    ensures IgnoresResult(After(a.invocation, ordinal)) && IgnoresResult(AtOrdinal(a.invocation, ordinal))
    ensures IgnoresResult(UnresolvedFor(l, key))
  {
  }

  lemma {:induction false} SameLatest(ps: seq<Permit>, qs: seq<Permit>, invocation: InvocationKey, now: nat)
    requires PermitsAlike(ps, qs, now)
    ensures LatestPermit(ps, invocation) == LatestPermit(qs, invocation)
  {
    if ps != [] {
      var last := |ps| - 1;
      SameLatest(ps[..last], qs[..last], invocation, now);
      assert PermitAlike(ps[last], qs[last], now);
      forall i | 0 <= i < last
        ensures ps[i].attempt == qs[i].attempt
      {
        assert PermitAlike(ps[i], qs[i], now);
      }
    }
  }

  // ---- Updates keep permits alike -----------------------------------------------

  lemma UpdateAlike(ps: seq<Permit>, qs: seq<Permit>, i: nat, p: Permit, q: Permit, now: nat)
    requires PermitsAlike(ps, qs, now) && i < |ps| && PermitAlike(p, q, now)
    ensures PermitsAlike(ps[i := p], qs[i := q], now)
  {
  }

  lemma AppendAlike(ps: seq<Permit>, qs: seq<Permit>, p: Permit, now: nat)
    requires PermitsAlike(ps, qs, now)
    ensures PermitsAlike(ps + [p], qs + [p], now)
  {
  }

  lemma RetireAlike(ps: seq<Permit>, qs: seq<Permit>, reference: string, now: nat)
    requires PermitsAlike(ps, qs, now)
    ensures PermitsAlike(Retire(ps, reference), Retire(qs, reference), now)
  {
    hide Retire;
    forall i | 0 <= i < |ps|
      ensures PermitAlike(Retire(ps, reference)[i], Retire(qs, reference)[i], now)
    {
      assert PermitAlike(ps[i], qs[i], now);
    }
  }

  lemma WithLedgerAlike(s: Store, t: Store, reference: string, l: Ledger, now: nat)
    requires Alike(s, t, now)
    ensures Alike(WithLedger(s, reference, l), WithLedger(t, reference, l), now)
  {
    hide Retire, StateOf, PermitsAlike;
    RetireAlike(s.permits, t.permits, reference, now);
  }

  // ---- Every other transaction treats such stores alike -------------------------

  lemma AcceptAlike(s: Store, t: Store, a: Attempt, token: string, reference: string, maxAttempts: nat, at: nat,
                    now: nat)
    requires Alike(s, t, now)
    ensures OutcomesAlike(AcceptIn(s, a, token, reference, maxAttempts, at),
                          AcceptIn(t, a, token, reference, maxAttempts, at), now)
  {
    hide FindLast, IgnoresResult;
    LookupsIgnoreResults(a, token, s.ledger, "", a.ordinal);
    SameFound(s.permits, t.permits, Pending(a, token), now);
    SameFound(s.permits, t.permits, After(a.invocation, a.ordinal), now);
    var found := FindLast(s.permits, Pending(a, token));
    if found.Some? && AcceptIn(s, a, token, reference, maxAttempts, at).Ok? {
      assert PermitAlike(s.permits[found.value], t.permits[found.value], now);
      var s' := AcceptIn(s, a, token, reference, maxAttempts, at).value;
      var t' := AcceptIn(t, a, token, reference, maxAttempts, at).value;
      UpdateAlike(s.permits, t.permits, found.value, s'.permits[found.value], t'.permits[found.value], now);
    }
  }

  lemma IssueAlike(s: Store, t: Store, a: Attempt, maxAttempts: nat, at: Clock, token: string, now: nat)
    requires Alike(s, t, now)
    ensures OutcomesAlike(IssueIn(s, a, maxAttempts, at, token), IssueIn(t, a, maxAttempts, at, token), now)
  {
    SameLatest(s.permits, t.permits, a.invocation, now);
    hide LatestPermit, StateOf;
    var latest := LatestPermit(s.permits, a.invocation);
    if latest.Some? {
      assert PermitAlike(s.permits[latest.value], t.permits[latest.value], now);
    }
    if IssueIn(s, a, maxAttempts, at, token).Ok? {
      var s' := IssueIn(s, a, maxAttempts, at, token).value;
      AppendAlike(s.permits, t.permits, s'.permits[|s.permits|], now);
    }
  }

  lemma AcceptJobAlike(s: Store, t: Store, a: Attempt, reference: string, maxAttempts: nat, at: Clock,
                       token: string, now: nat)
    requires Alike(s, t, now)
    ensures OutcomesAlike(AcceptJobIn(s, a, reference, maxAttempts, at, token),
                          AcceptJobIn(t, a, reference, maxAttempts, at, token), now)
  {
    hide FindLast, IgnoresResult, AcceptIn, IssueIn;
    LookupsIgnoreResults(a, token, s.ledger, "", a.ordinal);
    SameFound(s.permits, t.permits, AtOrdinal(a.invocation, a.ordinal), now);
    var found := FindLast(s.permits, AtOrdinal(a.invocation, a.ordinal));
    if found.Some? {
      assert PermitAlike(s.permits[found.value], t.permits[found.value], now);
      AcceptAlike(s, t, a, s.permits[found.value].token, reference, maxAttempts, at.third, now);
    } else {
      IssueAlike(s, t, a, maxAttempts, at, token, now);
      if IssueIn(s, a, maxAttempts, at, token).Ok? {
        AcceptAlike(IssueIn(s, a, maxAttempts, at, token).value, IssueIn(t, a, maxAttempts, at, token).value,
                    a, token, reference, maxAttempts, at.third, now);
      }
    }
  }

  lemma AdmitAlike(s: Store, t: Store, a: Attempt, key: string, policy: Option<BudgetPolicy>, at: nat, now: nat)
    requires Alike(s, t, now)
    ensures var r, q := Admit(s, a, key, policy, at), Admit(t, a, key, policy, at);
            r.Ok? == q.Ok? && (r.Ok? ==> Alike(r.value.0, q.value.0, now))
  {
    hide FindLast, IgnoresResult, StateOf, RequestBudget.Debit;
    LookupsIgnoreResults(a, "", s.ledger, key, a.ordinal);
    SameFound(s.permits, t.permits, UnresolvedFor(s.ledger, key), now);
    SameFound(s.permits, t.permits, InFlightFor(a), now);
    var found := FindLast(s.permits, InFlightFor(a));
    if found.Some? {
      var p, q := s.permits[found.value], t.permits[found.value];
      assert PermitAlike(p, q, now);
      UpdateAlike(s.permits, t.permits, found.value, p.(requestKey := Some(key)), q.(requestKey := Some(key)), now);
    }
  }

  lemma FinishAlike(s: Store, t: Store, mode: AnswerRecovery, result: DispatchResult,
                    budget: Option<BudgetAdmission>, outputReceived: bool, at: Clock, now: nat)
    requires Alike(s, t, now)
    ensures OutcomesAlike(FinishDispatch(s, mode, result, budget, outputReceived, at),
                          FinishDispatch(t, mode, result, budget, outputReceived, at), now)
  {
    hide FindLast, IgnoresResult, StateOf, Finish, WithLedger, SettledBudget, UsageEvidence;
    var a := result.receipt.attempt;
    LookupsIgnoreResults(a, "", s.ledger, "", a.ordinal);
    SameFound(s.permits, t.permits, InFlightFor(a), now);
    var found := FindLast(s.permits, InFlightFor(a));
    if found.Some? {
      var p, q := s.permits[found.value], t.permits[found.value];
      assert PermitAlike(p, q, now);
      var p', q' := FinishedPermit(p, result, mode, at.first), FinishedPermit(q, result, mode, at.first);
      UpdateAlike(s.permits, t.permits, found.value, p', q', now);
      var l := Finish(s.ledger, result.receipt.stored.reference, result.receipt.spendState,
                      UsageEvidence(mode, result.receipt.usage, outputReceived), outputReceived);
      if l.Ok? {
        WithLedgerAlike(s.(permits := s.permits[found.value := p']), t.(permits := t.permits[found.value := q']),
                        result.receipt.stored.reference, l.value, now);
      }
    }
  }

  lemma CompleteAlike(s: Store, t: Store, a: Attempt, e: Execution, mode: AnswerRecovery,
                      budget: Option<BudgetAdmission>, at: Clock, now: nat)
    requires Alike(s, t, now)
    ensures OutcomesAlike(Complete(s, a, e, mode, budget, at), Complete(t, a, e, mode, budget, at), now)
  {
    hide FindLast, IgnoresResult, FinishDispatch, Outcome;
    LookupsIgnoreResults(a, "", s.ledger, "", a.ordinal);
    SameFound(s.permits, t.permits, InFlightFor(a), now);
    var found := FindLast(s.permits, InFlightFor(a));
    if found.Some? {
      assert PermitAlike(s.permits[found.value], t.permits[found.value], now);
      if HandedOut(s, a).Some? {
        var (result, outputReceived) := Outcome(HandedOut(s, a).value, e);
        FinishAlike(s, t, mode, result, budget, outputReceived, at, now);
      }
    }
  }

  lemma AcceptingAlike(s: Store, t: Store, e: Event, now: nat)
    requires Alike(s, t, now) && (e.op.OpConsume? || e.op.OpAcceptJob?)
    ensures Alike(Step(s, e), Step(t, e), now)
  {
    hide FindLast, Reserve, ReserveHandoff, AcceptIn, AcceptJobIn, PermitsAlike;
    var op := e.op;
    if op.OpConsume? {
      AcceptAlike(s, t, op.a, op.token, op.handoff.reservation.reference, op.maxAttempts, e.at.first, now);
    } else {
      var reserved := Reserve(s.ledger, op.r, Some(op.attemptLimit), None);
      if reserved.Ok? {
        AcceptJobAlike(s.(ledger := reserved.value.1), t.(ledger := reserved.value.1), op.a, op.r.reference,
                       op.maxAttempts, e.at, op.token, now);
      }
    }
  }

  lemma SettlingAlike(s: Store, t: Store, e: Event, now: nat)
    requires Alike(s, t, now) && (e.op.OpReconcile? || e.op.OpRelease? || e.op.OpFinishJob?)
    ensures Alike(Step(s, e), Step(t, e), now)
  {
    hide FinishWithAnswer, Release, WithLedger, Retire, PermitsAlike;
    match e.op
    case OpReconcile(reference, state, usage, output, retention, policy) =>
      var result := FinishWithAnswer(s.ledger, reference, state, usage, output, false, retention, None, policy, e.at);
      if result.Ok? {
        WithLedgerAlike(s, t, reference, result.value, now);
      }
    case OpRelease(reference) =>
      var result := Release(s.ledger, reference);
      if result.Ok? {
        WithLedgerAlike(s, t, reference, result.value, now);
      }
    case OpFinishJob(reference, state, usage, output, evidence, retention, deadline, policy) =>
      var result := FinishWithAnswer(s.ledger, reference, state, usage, output, evidence, retention, deadline,
                                     policy, e.at);
      if result.Ok? {
        WithLedgerAlike(s, t, reference, result.value, now);
        RetireAlike(WithLedger(s, reference, result.value).permits, WithLedger(t, reference, result.value).permits,
                    reference, now);
      }
  }

  lemma StepAlike(s: Store, t: Store, e: Event, now: nat)
    requires Alike(s, t, now) && !e.op.OpPurgeResults?
    ensures Alike(Step(s, e), Step(t, e), now)
  {
    hide FindLast, Reserve, AcquireHandoff, ConstrainAnswer, DiscardAnswer, Erase, ExpireBatch, PermitsAlike;
    hide IssueIn, Admit, Complete, Consume, AcceptJob, FinishWithAnswer, Release, WithLedger, Retire;
    var op := e.op;
    if op.OpConsume? || op.OpAcceptJob? {
      AcceptingAlike(s, t, e, now);
    } else if op.OpReconcile? || op.OpRelease? || op.OpFinishJob? {
      SettlingAlike(s, t, e, now);
    } else if op.OpIssue? {
      IssueAlike(s, t, op.a, op.maxAttempts, e.at, op.token, now);
    } else if op.OpAdmit? {
      AdmitAlike(s, t, op.a, op.key, op.budgetPolicy, e.at.first, now);
    } else if op.OpComplete? {
      CompleteAlike(s, t, op.a, op.execution, op.mode, op.budget, e.at, now);
    }
  }

  /** A purge on one side leaves the stores alike from its time on. */
  lemma PurgeAlike(s: Store, t: Store, purgedAt: nat, now: nat)
    requires Alike(s, t, now) && purgedAt <= now
    ensures Alike(PurgeResults(s, purgedAt), t, now)
  {
    hide Expiry.Batch, Expiry.DueRows;
    var s' := PurgeResults(s, purgedAt);
    forall i | 0 <= i < |s.permits|
      ensures PermitAlike(s'.permits[i], t.permits[i], now)
    {
      assert PermitAlike(s.permits[i], t.permits[i], now);
      PurgedRow(s, purgedAt, i);
    }
  }

  // ---- Runs ---------------------------------------------------------------------

  function WithoutPurges(events: seq<Event>): seq<Event> {
    if events == [] then []
    else
      var last := events[|events| - 1];
      WithoutPurges(events[..|events| - 1]) + if last.op.OpPurgeResults? then [] else [last]
  }

  ghost predicate PurgedBy(events: seq<Event>, now: nat) {
    forall i | 0 <= i < |events| && events[i].op.OpPurgeResults? :: events[i].at.first <= now
  }

  lemma {:induction false} RunAlike(events: seq<Event>, now: nat)
    requires PurgedBy(events, now)
    ensures Alike(Run(EMPTY_STORE, events), Run(EMPTY_STORE, WithoutPurges(events)), now)
  {
    hide Alike, Step, PurgeResults;
    if events == [] {
      AlikeItself(EMPTY_STORE, now);
    } else {
      var earlier, last := events[..|events| - 1], events[|events| - 1];
      RunAlike(earlier, now);
      var s, t := Run(EMPTY_STORE, earlier), Run(EMPTY_STORE, WithoutPurges(earlier));
      if last.op.OpPurgeResults? {
        PurgeStep(s, last);
        assert WithoutPurges(events) == WithoutPurges(earlier);
        PurgeAlike(s, t, last.at.first, now);
      } else {
        RunAppend(EMPTY_STORE, WithoutPurges(earlier), last);
        StepAlike(s, t, last, now);
      }
    }
  }

  lemma PurgeStep(s: Store, e: Event)
    requires e.op.OpPurgeResults?
    ensures Step(s, e) == PurgeResults(s, e.at.first)
  {
    hide PurgeResults, FindLast, Reserve, AcquireHandoff, ConstrainAnswer, DiscardAnswer, Erase, ExpireBatch, Retire;
    hide IssueIn, Admit, Complete, Consume, AcceptJob, FinishWithAnswer, Release, WithLedger;
  }

  lemma AlikeItself(s: Store, now: nat)
    ensures Alike(s, s, now)
  {
  }

  /** Stores that differ in expired results show the same status. */
  lemma StatusAlike(s: Store, t: Store, invocation: InvocationKey, ordinal: nat, now: nat)
    requires Alike(s, t, now)
    ensures StatusAt(s, invocation, ordinal, now) == StatusAt(t, invocation, ordinal, now)
  {
    hide FindLast, IgnoresResult, StatusOf;
    AtOrdinalIgnoresResults(invocation, ordinal);
    SameFound(s.permits, t.permits, AtOrdinal(invocation, ordinal), now);
    var found := FindLast(s.permits, AtOrdinal(invocation, ordinal));
    if found.Some? {
      var p, q := s.permits[found.value], t.permits[found.value];
      assert PermitAlike(p, q, now);
      LookupsIgnoreResults(p.attempt, "", s.ledger, "", p.attempt.ordinal);
      SameFound(s.permits, t.permits, After(p.attempt.invocation, p.attempt.ordinal), now);
      RowStatusAlike(s, t, p, q, now);
    }
  }

  lemma AtOrdinalIgnoresResults(invocation: InvocationKey, ordinal: nat)
    ensures IgnoresResult(AtOrdinal(invocation, ordinal))
  {
  }

  lemma RowStatusAlike(s: Store, t: Store, p: Permit, q: Permit, now: nat)
    requires t.ledger == s.ledger && t.revisions == s.revisions && PermitAlike(p, q, now)
    requires Superseded(s.permits, p.attempt) == Superseded(t.permits, p.attempt)
    ensures StatusOf(s, p, now) == StatusOf(t, q, now)
  {
    hide FindLast, Superseded;
  }

  /** Two runs that differ only in result purges, whatever their clocks do, show the same status
      of every attempt at every time that is not before any of those purges. */
  lemma PurgesAreInvisible(events: seq<Event>, events': seq<Event>, invocation: InvocationKey, ordinal: nat,
                           now: nat)
    requires WithoutPurges(events) == WithoutPurges(events')
    requires PurgedBy(events, now) && PurgedBy(events', now)
    ensures StatusAt(Run(EMPTY_STORE, events), invocation, ordinal, now)
         == StatusAt(Run(EMPTY_STORE, events'), invocation, ordinal, now)
  {
    hide Alike, Run, StatusAt;
    var t := Run(EMPTY_STORE, WithoutPurges(events));
    RunAlike(events, now);
    RunAlike(events', now);
    StatusAlike(Run(EMPTY_STORE, events), t, invocation, ordinal, now);
    StatusAlike(Run(EMPTY_STORE, events'), t, invocation, ordinal, now);
  }
}
