/** Exactly when a permit is issued, and that a live permit is never superseded. */
module IssueTheorems {
  import opened Tables
  import opened Records
  import opened SpendLedger
  import opened LedgerInvariants
  import opened LedgerSteps
  import opened Registry
  import opened RegistryInvariants
  import opened RegistrySteps
  import opened Runs
  import opened StatusTheorems
  import Expiry

  // ---- Conditions ---------------------------------------------------------------

  /** Two attempts are of one invocation and carry the same immutable part. */
  lemma BindingIsImmutablePart(a: Attempt, b: Attempt)
    ensures a.Binding() == b.Binding()
       <==> a.invocation == b.invocation && a.recoveryExpiresAt == b.recoveryExpiresAt && a.content == b.content
  {
  }

  /** Permit `i` was issued last for the invocation. */
  ghost predicate LastIssued(permits: seq<Permit>, invocation: InvocationKey, i: int) {
    && 0 <= i < |permits| && permits[i].attempt.invocation == invocation
    && forall k | i < k < |permits| :: permits[k].attempt.invocation != invocation
  }

  predicate Current(s: Store, a: Attempt) {
    a.Grant() in s.revisions && s.revisions[a.Grant()] == a.grantRevision
  }

  /** The attempt continues the one of this permit. */
  predicate Continues(p: Permit, a: Attempt) {
    && p.attempt.recoveryExpiresAt == a.recoveryExpiresAt && p.attempt.content == a.content
    && p.attempt.ordinal < a.ordinal && p.attempt.recordSequence < a.recordSequence
  }

  /** Nothing of the permit can still be sent or charged: it never was accepted and cannot be any
      more, or its charge was released without a success. */
  predicate Over(s: Store, p: Permit, now: nat) {
    || StatusOf(s, p, now) == Ok(Invalidated)
    || (p.consumed && IsReleased(s.ledger, p) && p.receipt.value.status != Succeeded)
  }

  function ConsumedCount(s: Store, a: Attempt): nat {
    Count(s.permits, ConsumedIn(a.invocation))
  }

  lemma LastIsLatest(s: Store, invocation: InvocationKey)
    requires StoreInv(s)
    ensures var latest := LatestPermit(s.permits, invocation);
            && (latest.Some? ==> forall i :: LastIssued(s.permits, invocation, i) <==> i == latest.value)
            && (latest.None? ==> forall i :: !LastIssued(s.permits, invocation, i))
  {
    hide LedgerInv;
    LatestIsLast(s, invocation);
  }

  lemma LastIsNotSuperseded(s: Store, invocation: InvocationKey, i: nat)
    requires StoreInv(s) && LastIssued(s.permits, invocation, i)
    ensures !Superseded(s.permits, s.permits[i].attempt)
  {
    hide LedgerInv;
    var a := s.permits[i].attempt;
    forall k | 0 <= k < |s.permits|
      ensures !After(a.invocation, a.ordinal)(s.permits[k])
    {
      assert k < i && s.permits[k].attempt.invocation == invocation ==>
               Supersedes(s.ledger, s.permits[k], s.permits[i]);
    }
  }

  // ---- The decision -------------------------------------------------------------

  lemma SucceedsExactlyWhen(s: Store, i: nat, a: Attempt, now: nat)
    requires StoreInv(s) && LastIssued(s.permits, a.invocation, i) && Current(s, a)
    ensures var p := s.permits[i];
            var result := Succeed(s, p, a, now);
            && (result.Ok? <==> Continues(p, a) && Over(s, p, now))
            && (result.Ok? ==> result.value == p.acceptedAttempts)
            && (Continues(p, a) && StatusOf(s, p, now) == Ok(Permitted) ==> result == Err(ReconciliationRequired))
            && (Continues(p, a) && p.consumed && p.receipt.value.status == Succeeded ==>
                  result == Err(InvocationComplete))
            && (Continues(p, a) && p.consumed && p.receipt.value.status != Succeeded && !IsReleased(s.ledger, p) ==>
                  result == Err(ReconciliationRequired))
  {
    var p := s.permits[i];
    LastIsNotSuperseded(s, a.invocation, i);
    PermitHolds(s, i);
    BindingIsImmutablePart(p.attempt, a);
    hide LedgerInv, RegistryInv, Superseded, FindLast, StateOf, ProjectReceipt;
  }

  /** A permit is issued if and only if the attempt carries the published revision, continues the
      invocation's last permit if there is one, that permit is over, fewer permits were consumed than
      allowed and the authority has not expired. */
  lemma IssuesExactlyWhen(s: Store, a: Attempt, maxAttempts: nat, at: Clock, token: string)
    requires StoreInv(s)
    ensures IssueIn(s, a, maxAttempts, at, token).Ok?
       <==> && Current(s, a)
            && (forall i | LastIssued(s.permits, a.invocation, i) ::
                  Continues(s.permits[i], a) && Over(s, s.permits[i], at.first))
            && ConsumedCount(s, a) < maxAttempts
            && at.second < a.expiresAt
  {
    LastIsLatest(s, a.invocation);
    CarriedAllowance(s, a.invocation);
    var latest := LatestPermit(s.permits, a.invocation);
    hide LedgerInv, RegistryInv, LatestPermit, Succeed, LastIssued, Over, Continues, Count;
    if latest.Some? {
      assert LastIssued(s.permits, a.invocation, latest.value);
      if Current(s, a) {
        SucceedsExactlyWhen(s, latest.value, a, at.first);
      }
    }
  }

  lemma IssuedExactlyWhen(events: seq<Event>, a: Attempt, maxAttempts: nat, at: Clock, token: string)
    ensures var s := Run(EMPTY_STORE, events);
            IssueIn(s, a, maxAttempts, at, token).Ok?
            <==> && Current(s, a)
                 && (forall i | LastIssued(s.permits, a.invocation, i) ::
                       Continues(s.permits[i], a) && Over(s, s.permits[i], at.first))
                 && ConsumedCount(s, a) < maxAttempts
                 && at.second < a.expiresAt
  {
    hide Run, StoreInv, IssueIn, LastIssued, Over, Continues;
    Reachable(events);
    IssuesExactlyWhen(Run(EMPTY_STORE, events), a, maxAttempts, at, token);
  }

  /** A live permit blocks its successor. */
  lemma PermittedBlocksIssue(s: Store, i: nat, a: Attempt, maxAttempts: nat, at: Clock, token: string)
    requires StoreInv(s) && LastIssued(s.permits, a.invocation, i)
    requires StatusOf(s, s.permits[i], at.first) == Ok(Permitted)
    ensures IssueIn(s, a, maxAttempts, at, token).Err?
  {
    IssuesExactlyWhen(s, a, maxAttempts, at, token);
    hide LedgerInv, RegistryInv, IssueIn, LastIssued;
    assert !Over(s, s.permits[i], at.first);
  }

  /** A revision is published if and only if it is not below the one published before; then it is the
      grant's, and no other grant changes. */
  lemma PublishedExactlyWhen(s: Store, grant: GrantKey, revision: nat, other: GrantKey)
    ensures var result := Publish(s, grant, revision);
            && (result.Ok? <==> grant in s.revisions ==> s.revisions[grant] <= revision)
            && (result.Err? ==> result.error == RouteRefused)
            && (result.Ok? ==>
                  && grant in result.value.revisions && result.value.revisions[grant] == revision
                  && (other != grant ==>
                        (other in result.value.revisions <==> other in s.revisions)
                        && (other in s.revisions ==> result.value.revisions[other] == s.revisions[other]))
                  && result.value == s.(revisions := result.value.revisions))
  {
  }

  // ---- Live permits over runs ---------------------------------------------------

  /** Permit `i` is pending, current and not expired at `now`. */
  predicate Live(s: Store, i: int, now: nat) {
    && 0 <= i < |s.permits| && !s.permits[i].consumed
    && Current(s, s.permits[i].attempt) && now < s.permits[i].attempt.expiresAt
  }

  lemma LiveLastIsPermitted(s: Store, i: nat, now: nat)
    requires StoreInv(s) && Live(s, i, now) && LastIssued(s.permits, s.permits[i].attempt.invocation, i)
    ensures StatusOf(s, s.permits[i], now) == Ok(Permitted)
  {
    LastIsNotSuperseded(s, s.permits[i].attempt.invocation, i);
  }

  lemma IssueKeepsLast(s: Store, i: nat, a: Attempt, maxAttempts: nat, at: Clock, token: string)
    requires StoreInv(s) && Live(s, i, at.first) && LastIssued(s.permits, s.permits[i].attempt.invocation, i)
    ensures var result := IssueIn(s, a, maxAttempts, at, token);
            result.Ok? ==>
              && |s.permits| <= |result.value.permits| && result.value.permits[..|s.permits|] == s.permits
              && LastIssued(result.value.permits, s.permits[i].attempt.invocation, i)
  {
    var result := IssueIn(s, a, maxAttempts, at, token);
    if result.Ok? {
      IssueShape(s, a, maxAttempts, at, token);
      if a.invocation == s.permits[i].attempt.invocation {
        LiveLastIsPermitted(s, i, at.first);
        PermittedBlocksIssue(s, i, a, maxAttempts, at, token);
      }
      hide IssueIn, LedgerInv, RegistryInv;
    }
  }

  /** Rows evolved in place keep the last permit. */
  lemma EvolvedKeepsLast(permits: seq<Permit>, permits': seq<Permit>, i: nat)
    requires i < |permits| == |permits'| && LastIssued(permits, permits[i].attempt.invocation, i)
    requires forall k | 0 <= k < |permits| :: permits'[k].attempt == permits[k].attempt
    ensures LastIssued(permits', permits[i].attempt.invocation, i)
  {
  }

  lemma AcceptJobKeepsLast(s: Store, i: nat, a: Attempt, reference: string, maxAttempts: nat, at: Clock,
                           token: string)
    requires StoreInv(s) && Live(s, i, at.first) && LastIssued(s.permits, s.permits[i].attempt.invocation, i)
    ensures var result := AcceptJobIn(s, a, reference, maxAttempts, at, token);
            result.Ok? ==> LastIssued(result.value.permits, s.permits[i].attempt.invocation, i)
  {
    hide LedgerInv, RegistryInv, IssueIn, AcceptIn, FindLast, LastIssued;
    var result := AcceptJobIn(s, a, reference, maxAttempts, at, token);
    if result.Ok? {
      var existing := Newest(s.permits, AtOrdinal(a.invocation, a.ordinal));
      if existing.Some? {
        AcceptKeepsAttempts(s, a, existing.value.token, reference, maxAttempts, at.third);
        EvolvedKeepsLast(s.permits, result.value.permits, i);
      } else {
        IssueKeepsLast(s, i, a, maxAttempts, at, token);
        var issued := IssueIn(s, a, maxAttempts, at, token).value;
        AcceptKeepsAttempts(issued, a, token, reference, maxAttempts, at.third);
        SamePermit(s, issued, i);
        EvolvedKeepsLast(issued.permits, result.value.permits, i);
      }
    }
  }

  lemma SamePermit(s: Store, issued: Store, i: nat)
    requires i < |s.permits| && |s.permits| <= |issued.permits| && issued.permits[..|s.permits|] == s.permits
    ensures issued.permits[i] == s.permits[i]
  {
    assert issued.permits[..|s.permits|][i] == issued.permits[i];
  }

  lemma AcceptKeepsAttempts(s: Store, a: Attempt, token: string, reference: string, maxAttempts: nat, now: nat)
    ensures var result := AcceptIn(s, a, token, reference, maxAttempts, now);
            result.Ok? ==>
              && |result.value.permits| == |s.permits|
              && forall k | 0 <= k < |s.permits| :: result.value.permits[k].attempt == s.permits[k].attempt
  {
    hide FindLast;
  }

  /** Only issuing adds a permit. */
  lemma OthersAddNoPermit(s: Store, e: Event)
    requires StoreInv(s) && !e.op.OpIssue? && !e.op.OpAcceptJob?
    ensures |Step(s, e).permits| == |s.permits|
  {
    hide LedgerInv, RegistryInv, FindLast, Reserve, FinishWithAnswer, Release, AcquireHandoff, ConstrainAnswer;
    hide DiscardAnswer, Erase, ExpireBatch, Retire, AcceptIn, Consume, Admit, Complete, StateOf, Expiry.Batch;
    hide WithLedger;
    var op := e.op;
    if op.OpConsume? {
      ConsumeShape(s, op.a, op.token, op.handoff, op.maxAttempts, e.at.first);
      AcceptKeepsAttempts(s, op.a, op.token, op.handoff.reservation.reference, op.maxAttempts, e.at.first);
    } else if op.OpAdmit? {
      if Admit(s, op.a, op.key, op.budgetPolicy, e.at.first).Ok? {
        AdmitShape(s, op.a, op.key, op.budgetPolicy, e.at.first);
      }
    } else if op.OpComplete? {
      if Complete(s, op.a, op.execution, op.mode, op.budget, e.at).Ok? {
        CompletionShape(s, op.a, op.execution, op.mode, op.budget, e.at);
      }
    }
  }

  lemma StepKeepsLast(s: Store, e: Event, i: nat)
    requires StoreInv(s) && Live(s, i, e.at.first) && LastIssued(s.permits, s.permits[i].attempt.invocation, i)
    ensures i < |Step(s, e).permits| && LastIssued(Step(s, e).permits, s.permits[i].attempt.invocation, i)
  {
    hide LedgerInv, RegistryInv, Step, LastIssued;
    if e.op.OpIssue? {
      IssueStepKeepsLast(s, e, i);
    } else if e.op.OpAcceptJob? {
      AcceptJobStepKeepsLast(s, e, i);
    } else {
      StepKeeps(s, e);
      OthersAddNoPermit(s, e);
      var s' := Step(s, e);
      forall k | 0 <= k < |s.permits|
        ensures s'.permits[k].attempt == s.permits[k].attempt
      {
        assert PermitEvolves(s.permits[k], s'.permits[k]);
      }
      EvolvedKeepsLast(s.permits, s'.permits, i);
    }
  }

  lemma IssueStepKeepsLast(s: Store, e: Event, i: nat)
    requires StoreInv(s) && Live(s, i, e.at.first) && LastIssued(s.permits, s.permits[i].attempt.invocation, i)
    requires e.op.OpIssue?
    ensures i < |Step(s, e).permits| && LastIssued(Step(s, e).permits, s.permits[i].attempt.invocation, i)
  {
    hide LedgerInv, RegistryInv, IssueIn, LastIssued;
    IssueKeepsLast(s, i, e.op.a, e.op.maxAttempts, e.at, e.op.token);
    IssueGrows(s, e.op.a, e.op.maxAttempts, e.at, e.op.token);
  }

  lemma IssueGrows(s: Store, a: Attempt, maxAttempts: nat, at: Clock, token: string)
    ensures var result := IssueIn(s, a, maxAttempts, at, token);
            result.Ok? ==> |result.value.permits| == |s.permits| + 1
  {
    if IssueIn(s, a, maxAttempts, at, token).Ok? {
      IssueShape(s, a, maxAttempts, at, token);
    }
  }

  lemma AcceptJobStepKeepsLast(s: Store, e: Event, i: nat)
    requires StoreInv(s) && Live(s, i, e.at.first) && LastIssued(s.permits, s.permits[i].attempt.invocation, i)
    requires e.op.OpAcceptJob?
    ensures i < |Step(s, e).permits| && LastIssued(Step(s, e).permits, s.permits[i].attempt.invocation, i)
  {
    hide LedgerInv, RegistryInv, AcceptJobIn, Reserve, StoreAdvances, Advances;
    var op := e.op;
    var reserved := Reserve(s.ledger, op.r, Some(op.attemptLimit), None);
    ReserveKeeps(s.ledger, op.r, Some(op.attemptLimit), None);
    if reserved.Ok? {
      var s1 := s.(ledger := reserved.value.1);
      LedgerKeeps(s, s1.ledger);
      AcceptJobKeepsLast(s1, i, op.a, op.r.reference, op.maxAttempts, e.at, op.token);
    }
  }

  /** With a clock that does not go back, a permit that is Permitted stays so until it is consumed,
      a revision is published for its grant, or it expires: no other permit takes its place. */
  lemma {:induction false} LivePermitStays(s: Store, i: nat, now: nat, later: seq<Event>, now': nat)
    requires StoreInv(s) && Live(s, i, now) && LastIssued(s.permits, s.permits[i].attempt.invocation, i)
    requires Between(now, later, now')
    requires Live(Run(s, later), i, now')
    requires var grant := s.permits[i].attempt.Grant();
             grant in Run(s, later).revisions && Run(s, later).revisions[grant] == s.revisions[grant]
    ensures s.permits[i].attempt == Run(s, later).permits[i].attempt
    ensures LastIssued(Run(s, later).permits, s.permits[i].attempt.invocation, i)
  {
    hide LedgerInv, RegistryInv, Step, LastIssued;
    if later != [] {
      var earlier, last := later[..|later| - 1], later[|later| - 1];
      var s1, s2 := Run(s, earlier), Run(s, later);
      RunKeeps(s, earlier);
      StepKeeps(s1, last);
      assert PermitEvolves(s.permits[i], s1.permits[i]);
      assert PermitEvolves(s1.permits[i], s2.permits[i]);
      assert Live(s1, i, last.at.first);
      assert Between(now, earlier, last.at.first);
      LivePermitStays(s, i, now, earlier, last.at.first);
      StepKeepsLast(s1, last, i);
    }
  }

  lemma PermittedIsLive(s: Store, i: nat, now: nat)
    requires StoreInv(s) && i < |s.permits| && StatusOf(s, s.permits[i], now) == Ok(Permitted)
    ensures Live(s, i, now) && LastIssued(s.permits, s.permits[i].attempt.invocation, i)
  {
    hide LedgerInv, FindLast;
    assert !Superseded(s.permits, s.permits[i].attempt);
    AcceptedIsLatest(s, i);
  }

  /** The same for runs from the empty store: a Permitted status ends in no other way. */
  lemma PermittedEndsOnlyWhen(events: seq<Event>, i: nat, now: nat, later: seq<Event>, now': nat)
    requires i < |Run(EMPTY_STORE, events).permits| && Between(now, later, now')
    requires StatusOf(Run(EMPTY_STORE, events), Run(EMPTY_STORE, events).permits[i], now) == Ok(Permitted)
    ensures var s := Run(EMPTY_STORE, events);
            var s' := Run(s, later);
            var a := s.permits[i].attempt;
            && i < |s'.permits| && a.Grant() in s.revisions && a.Grant() in s'.revisions
            && (|| StatusOf(s', s'.permits[i], now') == Ok(Permitted)
                || s'.permits[i].consumed
                || s'.revisions[a.Grant()] != s.revisions[a.Grant()]
                || a.expiresAt <= now')
  {
    hide Run, LedgerInv, RegistryInv, Step, StatusOf, LastIssued;
    var s := Run(EMPTY_STORE, events);
    Reachable(events);
    PermittedIsLive(s, i, now);
    var s' := Run(s, later);
    RunKeeps(s, later);
    assert PermitEvolves(s.permits[i], s'.permits[i]);
    if Live(s', i, now') && s'.revisions[s.permits[i].attempt.Grant()] == s.revisions[s.permits[i].attempt.Grant()] {
      LivePermitStays(s, i, now, later, now');
      LiveLastIsPermitted(s', i, now');
    }
  }
}
