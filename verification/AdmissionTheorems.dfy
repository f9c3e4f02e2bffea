/** Exactly when an attempt is consumed, a job accepted and a request admitted, and when a request
    binding ends. */
module AdmissionTheorems {
  import opened Tables
  import opened Records
  import opened SpendLedger
  import opened LedgerInvariants
  import opened LedgerSteps
  import opened Registry
  import opened RegistryInvariants
  import opened RegistrySteps
  import opened Runs
  import opened StatusTheorems
  import opened ReadBack
  import opened IssueTheorems
  import ReserveTheorems
  import RequestBudget

  // ---- Consume ------------------------------------------------------------------

  /** Permit `i` is the one presented and can still be accepted. */
  predicate Presentable(s: Store, a: Attempt, i: int, maxAttempts: nat, now: nat) {
    && 0 <= i < |s.permits| && s.permits[i].attempt == a
    && StatusOf(s, s.permits[i], now) == Ok(Permitted)
    && s.permits[i].acceptedAttempts < maxAttempts
  }

  lemma AcceptsExactlyWhen(s: Store, a: Attempt, token: string, reference: string, maxAttempts: nat, now: nat)
    requires StoreInv(s)
    ensures AcceptIn(s, a, token, reference, maxAttempts, now).Ok?
       <==> exists i :: Presentable(s, a, i, maxAttempts, now) && s.permits[i].token == token
  {
    hide LedgerInv, RegistryInv, FindLast, StatusOf, AcceptIn;
    forall i | 0 <= i < |s.permits| && s.permits[i].attempt == a && s.permits[i].token == token
      ensures AcceptIn(s, a, token, reference, maxAttempts, now).Ok? <==> Presentable(s, a, i, maxAttempts, now)
    {
      AcceptsPermitted(s, i, reference, maxAttempts, now);
    }
    if AcceptIn(s, a, token, reference, maxAttempts, now).Ok? {
      AcceptedExists(s, a, token, reference, maxAttempts, now);
    }
  }

  lemma AcceptedExists(s: Store, a: Attempt, token: string, reference: string, maxAttempts: nat, now: nat)
    requires AcceptIn(s, a, token, reference, maxAttempts, now).Ok?
    ensures exists i :: 0 <= i < |s.permits| && s.permits[i].attempt == a && s.permits[i].token == token
  {
    var i := FindLast(s.permits, Pending(a, token)).value;
    assert Pending(a, token)(s.permits[i]);
  }

  /** In every run an attempt is consumed if and only if its own permit is presented, Permitted and
      within the allowance, and its handoff's reservation is acceptable. */
  lemma ConsumedExactlyWhen(events: seq<Event>, a: Attempt, token: string, handoff: Handoff, maxAttempts: nat,
                            now: nat)
    ensures var s := Run(EMPTY_STORE, events);
            var r := handoff.reservation;
            Consume(s, a, token, handoff, maxAttempts, now).Ok?
            <==> && (exists i :: Presentable(s, a, i, maxAttempts, now) && s.permits[i].token == token)
                 && handoff.inputIdentity != ""
                 && ReserveTheorems.Fresh(s.ledger.receipts, r.reference)
                 && ReserveTheorems.Acceptable(s.ledger.receipts, r, None, Some(handoff.inputIdentity))
  {
    hide Run, LedgerInv, RegistryInv, Presentable, ReserveTheorems.Acceptable, ReserveTheorems.Fresh;
    var s := Run(EMPTY_STORE, events);
    Reachable(events);
    AcceptsExactlyWhen(s, a, token, handoff.reservation.reference, maxAttempts, now);
    ReserveTheorems.ReservedExactlyWhen(events, handoff.reservation, None, Some(handoff.inputIdentity));
    ConsumeNeedsBoth(s, a, token, handoff, maxAttempts, now);
    hide Consume, AcceptIn, Reserve;
  }

  lemma ConsumeNeedsBoth(s: Store, a: Attempt, token: string, handoff: Handoff, maxAttempts: nat, now: nat)
    ensures var accepted := AcceptIn(s, a, token, handoff.reservation.reference, maxAttempts, now);
            var reserved := Reserve(s.ledger, handoff.reservation, None, Some(handoff.inputIdentity));
            Consume(s, a, token, handoff, maxAttempts, now).Ok?
            <==> accepted.Ok? && handoff.inputIdentity != "" && reserved.Ok? && reserved.value.0
  {
    hide Reserve, FindLast;
  }

  /** A handoff is reattached if and only if exactly its reservation is held with the same input; a
      fresh one is accepted as any reservation is. */
  lemma HandoffReservedExactlyWhen(l: Ledger, handoff: Handoff, i: nat)
    requires LedgerInv(l) && i < |l.receipts|
    requires l.receipts[i].reservation.reference == handoff.reservation.reference
    ensures ReserveHandoff(l, handoff)
         == if handoff.inputIdentity != "" && l.receipts[i].reservation == handoff.reservation
               && l.receipts[i].handoffInput == Some(handoff.inputIdentity)
            then Ok((false, l)) else Err(Conflict)
  {
    ReserveTheorems.ReattachedExactlyWhen(l, handoff.reservation, None, Some(handoff.inputIdentity), i);
    IndexByReference(l, i);
    hide LedgerInv, Reserve, FindLast;
  }

  /** Why a presentable attempt is still refused: an exhausted ceiling or limit is a refused budget,
      a conflict asks for reconciliation, and a reference already held refuses the permit. */
  lemma ConsumeRefusals(s: Store, a: Attempt, token: string, handoff: Handoff, maxAttempts: nat, now: nat)
    requires AcceptIn(s, a, token, handoff.reservation.reference, maxAttempts, now).Ok?
    ensures var reserved := ReserveHandoff(s.ledger, handoff);
            var result := Consume(s, a, token, handoff, maxAttempts, now);
            && (reserved == Err(AttemptBudgetExhausted) || reserved == Err(SpendBudgetExhausted) ==>
                  result == Err(BudgetRefused))
            && (reserved == Err(Conflict) ==> result == Err(ReconciliationRequired))
            && (reserved == Err(Storage) || reserved == Err(InvocationCompleted) ==> result == Err(StateUnavailable))
            && (reserved.Ok? && !reserved.value.0 ==> result == Err(PermitRefused))
  {
    hide Reserve, FindLast;
  }

  // ---- Job acceptance -----------------------------------------------------------

  /** No permit has the attempt's identity. */
  ghost predicate Unissued(s: Store, a: Attempt) {
    forall i | 0 <= i < |s.permits| ::
      !(s.permits[i].attempt.invocation == a.invocation && s.permits[i].attempt.ordinal == a.ordinal)
  }

  /** The attempt may be issued now and is then accepted before its authority expires. */
  ghost predicate Issuable(s: Store, a: Attempt, maxAttempts: nat, at: Clock) {
    && Current(s, a)
    && (forall i | LastIssued(s.permits, a.invocation, i) ::
          Continues(s.permits[i], a) && Over(s, s.permits[i], at.first))
    && ConsumedCount(s, a) < maxAttempts
    && at.second < a.expiresAt && at.third < a.expiresAt
  }

  /** A job's attempt is accepted with the permit it has, or with one issued on the spot. */
  ghost predicate JobAcceptable(s: Store, a: Attempt, maxAttempts: nat, at: Clock) {
    || (exists i :: Presentable(s, a, i, maxAttempts, at.third))
    || (Unissued(s, a) && Issuable(s, a, maxAttempts, at))
  }

  lemma FoundByOrdinal(s: Store, a: Attempt)
    requires StoreInv(s)
    ensures var found := FindLast(s.permits, AtOrdinal(a.invocation, a.ordinal));
            && (found.None? <==> Unissued(s, a))
            && (found.Some? ==> forall i | 0 <= i < |s.permits| && s.permits[i].attempt == a :: i == found.value)
  {
    hide LedgerInv;
    var found := FindLast(s.permits, AtOrdinal(a.invocation, a.ordinal));
    if found.Some? {
      assert AtOrdinal(a.invocation, a.ordinal)(s.permits[found.value]);
      forall i | 0 <= i < |s.permits| && s.permits[i].attempt == a
        ensures i == found.value
      {
        SameAttempt(s, i, found.value);
      }
    } else {
      assert forall i | 0 <= i < |s.permits| :: !AtOrdinal(a.invocation, a.ordinal)(s.permits[i]);
    }
  }

  /** A permit just issued is accepted until its authority expires. */
  lemma FreshPermitAccepted(s: Store, a: Attempt, reference: string, maxAttempts: nat, at: Clock, token: string)
    requires StoreInv(s) && IssueIn(s, a, maxAttempts, at, token).Ok?
    ensures AcceptIn(IssueIn(s, a, maxAttempts, at, token).value, a, token, reference, maxAttempts, at.third).Ok?
       <==> at.third < a.expiresAt
  {
    IssueShape(s, a, maxAttempts, at, token);
    IssueKeeps(s, a, maxAttempts, at, token);
    hide LedgerInv, RegistryInv, IssueIn, AcceptIn, StoreAdvances, Superseded, FindLast;
    var issued := IssueIn(s, a, maxAttempts, at, token).value;
    var n := |s.permits|;
    AcceptsPermitted(issued, n, reference, maxAttempts, at.third);
    NewestIsNotSuperseded(issued, n);
  }

  lemma AcceptsJobExactlyWhen(s: Store, a: Attempt, reference: string, maxAttempts: nat, at: Clock, token: string)
    requires StoreInv(s)
    ensures AcceptJobIn(s, a, reference, maxAttempts, at, token).Ok? <==> JobAcceptable(s, a, maxAttempts, at)
  {
    hide LedgerInv, RegistryInv, FindLast, IssueIn, AcceptIn, StatusOf, LastIssued, Over, Continues;
    FoundByOrdinal(s, a);
    var found := FindLast(s.permits, AtOrdinal(a.invocation, a.ordinal));
    if found.Some? {
      var p := s.permits[found.value];
      if p.attempt == a {
        AcceptsPermitted(s, found.value, reference, maxAttempts, at.third);
        assert AcceptIn(s, a, p.token, reference, maxAttempts, at.third).Ok?
          <==> Presentable(s, a, found.value, maxAttempts, at.third);
      }
    } else {
      IssuesExactlyWhen(s, a, maxAttempts, at, token);
      if IssueIn(s, a, maxAttempts, at, token).Ok? {
        FreshPermitAccepted(s, a, reference, maxAttempts, at, token);
      }
      forall i
        ensures !Presentable(s, a, i, maxAttempts, at.third)
      {
      }
    }
  }

  /** Reserving another reference does not change what can be accepted. */
  lemma AcceptableAfterReserve(s: Store, l: Ledger, r: Reservation, a: Attempt, maxAttempts: nat, at: Clock)
    requires StoreInv(s) && Keeps(s.ledger, l) && Appended(s.ledger, l, r)
    ensures JobAcceptable(s.(ledger := l), a, maxAttempts, at) <==> JobAcceptable(s, a, maxAttempts, at)
  {
    var s1 := s.(ledger := l);
    forall i: int
      ensures Presentable(s1, a, i, maxAttempts, at.third) <==> Presentable(s, a, i, maxAttempts, at.third)
    {
      if 0 <= i < |s.permits| {
        SamePending(s, l, s.permits[i], at.third);
      }
    }
    forall i | 0 <= i < |s.permits|
      ensures Over(s1, s.permits[i], at.first) <==> Over(s, s.permits[i], at.first)
    {
      SamePending(s, l, s.permits[i], at.first);
      SameReleased(s, l, r, i);
    }
    hide LedgerInv, RegistryInv, Keeps, Appended, Presentable, Over, Continues;
  }

  lemma SamePending(s: Store, l: Ledger, p: Permit, now: nat)
    ensures StatusOf(s.(ledger := l), p, now) == Ok(Permitted) <==> StatusOf(s, p, now) == Ok(Permitted)
    ensures StatusOf(s.(ledger := l), p, now) == Ok(Invalidated) <==> StatusOf(s, p, now) == Ok(Invalidated)
  {
    hide Superseded, FindLast;
  }

  lemma SameReleased(s: Store, l: Ledger, r: Reservation, i: nat)
    requires StoreInv(s) && Keeps(s.ledger, l) && Appended(s.ledger, l, r) && i < |s.permits|
    ensures s.permits[i].consumed ==> (IsReleased(l, s.permits[i]) <==> IsReleased(s.ledger, s.permits[i]))
  {
    var p := s.permits[i];
    PermitHolds(s, i);
    if p.consumed {
      var reference := p.receipt.value.reference;
      var k := ReceiptIndex(s.ledger, reference).value;
      assert HasReference(reference)(s.ledger.receipts[k]);
      assert l.receipts[k] == l.receipts[..|s.ledger.receipts|][k];
      IndexByReference(l, k);
    }
  }

  /** In every run a job is accepted if and only if its reservation is acceptable and its attempt has
      a Permitted permit within the allowance or can be issued one. */
  lemma JobAcceptedExactlyWhen(events: seq<Event>, a: Attempt, r: Reservation, attemptLimit: u32, maxAttempts: nat,
                               at: Clock, token: string)
    ensures var s := Run(EMPTY_STORE, events);
            AcceptJob(s, a, r, attemptLimit, maxAttempts, at, token).Ok?
            <==> && ReserveTheorems.Fresh(s.ledger.receipts, r.reference)
                 && ReserveTheorems.Acceptable(s.ledger.receipts, r, Some(attemptLimit), None)
                 && JobAcceptable(s, a, maxAttempts, at)
  {
    hide Run, LedgerInv, RegistryInv, Reserve, AcceptJobIn, JobAcceptable, Advances, StoreAdvances;
    hide ReserveTheorems.Acceptable, ReserveTheorems.Fresh;
    var s := Run(EMPTY_STORE, events);
    Reachable(events);
    ReserveTheorems.ReservedExactlyWhen(events, r, Some(attemptLimit), None);
    ReserveKeeps(s.ledger, r, Some(attemptLimit), None);
    var reserved := Reserve(s.ledger, r, Some(attemptLimit), None);
    if reserved.Ok? && reserved.value.0 {
      var l := reserved.value.1;
      LedgerKeeps(s, l);
      AcceptsJobExactlyWhen(s.(ledger := l), a, r.reference, maxAttempts, at, token);
      AcceptableAfterReserve(s, l, r, a, maxAttempts, at);
    }
  }

  // ---- Request admission --------------------------------------------------------

  /** The attempt is consumed, in flight and not bound yet. */
  predicate Bindable(s: Store, a: Attempt, i: int) {
    0 <= i < |s.permits| && s.permits[i].attempt == a && Outstanding(s.permits[i]) && s.permits[i].requestKey.None?
  }

  ghost predicate SendUncertain(s: Store, key: string) {
    exists i :: 0 <= i < |s.permits| && Uncertain(s.ledger, s.permits[i], key)
  }

  predicate BudgetAllows(s: Store, key: string, policy: Option<BudgetPolicy>, now: nat) {
    policy.Some? ==>
      RequestBudget.Debit(policy.value, if key in s.failures then Some(s.failures[key]) else None, now).Ok?
  }

  lemma UncertainIsFound(s: Store, key: string)
    requires StoreInv(s)
    ensures var found := FindLast(s.permits, UnresolvedFor(s.ledger, key));
            && (found.Some? <==> SendUncertain(s, key))
            && (found.Some? ==> s.permits[found.value].receipt.Some?
                                && StateOf(s.ledger, s.permits[found.value].receipt.value.reference).Some?)
  {
    var found := FindLast(s.permits, UnresolvedFor(s.ledger, key));
    forall i | 0 <= i < |s.permits|
      ensures UnresolvedFor(s.ledger, key)(s.permits[i]) <==> Uncertain(s.ledger, s.permits[i], key)
    {
      PermitHolds(s, i);
    }
    hide LedgerInv, RegistryInv, FindLast;
    if found.Some? {
      assert UnresolvedFor(s.ledger, key)(s.permits[found.value]);
    }
  }

  lemma BindableIsFound(s: Store, a: Attempt)
    requires StoreInv(s)
    ensures var found := FindLast(s.permits, InFlightFor(a));
            (exists i :: Bindable(s, a, i)) <==> found.Some? && s.permits[found.value].requestKey.None?
  {
    hide LedgerInv;
    var found := FindLast(s.permits, InFlightFor(a));
    if found.Some? {
      assert InFlightFor(a)(s.permits[found.value]);
      forall i | Bindable(s, a, i)
        ensures i == found.value
      {
        SameAttempt(s, i, found.value);
      }
      assert s.permits[found.value].requestKey.None? ==> Bindable(s, a, found.value);
    } else {
      assert forall i | 0 <= i < |s.permits| :: !InFlightFor(a)(s.permits[i]);
    }
  }

  /** In every run a request is admitted if and only if no send of its key is uncertain, its attempt
      is in flight and unbound, and its budget allows one more send; the three refusals are told
      apart in that order. */
  lemma AdmittedExactlyWhen(events: seq<Event>, a: Attempt, key: string, policy: Option<BudgetPolicy>, now: nat)
    ensures var s := Run(EMPTY_STORE, events);
            var result := Admit(s, a, key, policy, now);
            && (result.Ok? <==> !SendUncertain(s, key) && (exists i :: Bindable(s, a, i))
                                && BudgetAllows(s, key, policy, now))
            && (result == Err(ReconciliationRequired) <==> SendUncertain(s, key))
            && (result == Err(PermitRefused) <==> !SendUncertain(s, key) && !exists i :: Bindable(s, a, i))
            && (result == Err(RequestBudgetExhausted)
                <==> !SendUncertain(s, key) && (exists i :: Bindable(s, a, i)) && !BudgetAllows(s, key, policy, now))
  {
    hide Run, StoreInv, Admit, SendUncertain, Bindable;
    Reachable(events);
    AdmitsExactlyWhen(Run(EMPTY_STORE, events), a, key, policy, now);
  }

  lemma AdmitsExactlyWhen(s: Store, a: Attempt, key: string, policy: Option<BudgetPolicy>, now: nat)
    requires StoreInv(s)
    ensures var result := Admit(s, a, key, policy, now);
            && (result.Ok? <==> !SendUncertain(s, key) && (exists i :: Bindable(s, a, i))
                                && BudgetAllows(s, key, policy, now))
            && (result == Err(ReconciliationRequired) <==> SendUncertain(s, key))
            && (result == Err(PermitRefused) <==> !SendUncertain(s, key) && !exists i :: Bindable(s, a, i))
            && (result == Err(RequestBudgetExhausted)
                <==> !SendUncertain(s, key) && (exists i :: Bindable(s, a, i)) && !BudgetAllows(s, key, policy, now))
  {
    hide LedgerInv, RegistryInv, FindLast, SendUncertain, Bindable, StateOf;
    UncertainIsFound(s, key);
    BindableIsFound(s, a);
    DebitRefusal(s, key, policy, now);
    hide RequestBudget.Debit;
  }

  lemma DebitRefusal(s: Store, key: string, policy: Option<BudgetPolicy>, now: nat)
    ensures policy.Some? ==>
              var result := RequestBudget.Debit(policy.value,
                                                if key in s.failures then Some(s.failures[key]) else None, now);
              result.Err? ==> result.error == RequestBudgetExhausted
  {
  }
}
