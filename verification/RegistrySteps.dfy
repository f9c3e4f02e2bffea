/** Each registry transaction keeps the store invariant and only appends or evolves rows. */
module RegistrySteps {
  import opened Tables
  import opened Records
  import opened SpendLedger
  import opened LedgerInvariants
  import opened LedgerSteps
  import opened Registry
  import opened RegistryInvariants
  import Expiry

  ghost predicate StoreKeeps(s: Store, s': Store) {
    StoreInv(s') && StoreAdvances(s, s')
  }

  // ---- Ledger transactions inside the store -------------------------------------

  /** Any ledger transaction that leaves the permits alone. */
  lemma LedgerKeeps(s: Store, l: Ledger)
    requires StoreInv(s) && Keeps(s.ledger, l)
    ensures StoreKeeps(s, s.(ledger := l))
  {
    hide Conserved, WithinLimits, Chains, Fenced, AttemptsCounted, RowOk, Evolves, FindLast;
    hide Succession, OwnReceipts, BoundOnce, AllowanceCounted;
    forall i | 0 <= i < |s.permits|
      ensures PermitOk(l, s.permits[i])
    {
      assert PermitOk(s.ledger, s.permits[i]);
      if s.permits[i].consumed {
        StateAdvances(s.ledger, l, s.permits[i].receipt.value.reference);
      }
    }
    TrimmingKeeps(s, s.(ledger := l));
  }

  /** No permit refers to a reference the ledger did not hold before. */
  lemma FreshReceipt(s: Store, l: Ledger, r: Reservation)
    requires StoreInv(s) && Keeps(s.ledger, l) && Appended(s.ledger, l, r)
    ensures StateOf(l, r.reference) == Some(Unknown)
    ensures forall p <- s.permits :: !Refers(p, r.reference)
  {
    IndexByReference(l, |s.ledger.receipts|);
    forall i | 0 <= i < |s.permits|
      ensures !Refers(s.permits[i], r.reference)
    {
      assert PermitOk(s.ledger, s.permits[i]);
    }
  }

  /** Permits that differ only in fields the allowance does not read. */
  lemma SameAllowance(permits: seq<Permit>, permits': seq<Permit>)
    requires |permits'| == |permits| && AllowanceCounted(permits)
    requires forall i | 0 <= i < |permits| ::
               && permits'[i].attempt == permits[i].attempt
               && permits'[i].consumed == permits[i].consumed
               && permits'[i].acceptedAttempts == permits[i].acceptedAttempts
    ensures AllowanceCounted(permits')
  {
    forall i | IsLatest(permits', i)
      ensures permits'[i].acceptedAttempts
           == Count(permits', ConsumedIn(permits'[i].attempt.invocation))
    {
      forall k | i < k < |permits|
        ensures permits[k].attempt.invocation != permits[i].attempt.invocation
      {
        assert permits'[k].attempt.invocation != permits'[i].attempt.invocation;
      }
      assert IsLatest(permits, i);
      CountSame(permits, permits', ConsumedIn(permits[i].attempt.invocation));
    }
  }

  /** A released predecessor stays released whatever the ledger does next. */
  lemma SameSuccession(s: Store, l: Ledger, permits: seq<Permit>)
    requires UniqueReferences(s.ledger.receipts) && UniqueReferences(l.receipts)
    requires Advances(s.ledger.receipts, l.receipts) && Succession(s.ledger, s.permits)
    requires |permits| == |s.permits|
    requires forall i | 0 <= i < |permits| ::
               && permits[i].attempt == s.permits[i].attempt
               && permits[i].consumed == s.permits[i].consumed
               && permits[i].receipt == s.permits[i].receipt
    ensures Succession(l, permits)
  {
    forall i, j | 0 <= i < j < |permits| && permits[i].attempt.invocation == permits[j].attempt.invocation
      ensures Supersedes(l, permits[i], permits[j])
    {
      assert Supersedes(s.ledger, s.permits[i], s.permits[j]);
      if permits[i].consumed {
        StateAdvances(s.ledger, l, permits[i].receipt.value.reference);
      }
    }
  }

  /** `q` is `p` with its binding retired or its stored result removed, or unchanged. */
  predicate Trimmed(p: Permit, q: Permit) {
    q == p || (q == p.(requestKey := None) && p.finished == InFlight) || q == p.(result := None)
  }

  lemma SameReceipts(permits: seq<Permit>, permits': seq<Permit>)
    requires |permits'| == |permits| && OwnReceipts(permits)
    requires forall i | 0 <= i < |permits| :: Trimmed(permits[i], permits'[i])
    ensures OwnReceipts(permits')
  {
  }

  /** What is uncertain now was uncertain before: resolved receipts never reopen. */
  lemma SameBindings(s: Store, l: Ledger, permits: seq<Permit>)
    requires UniqueReferences(s.ledger.receipts) && UniqueReferences(l.receipts)
    requires Advances(s.ledger.receipts, l.receipts) && BoundOnce(s.ledger, s.permits)
    requires |permits| == |s.permits|
    requires forall i | 0 <= i < |permits| ::
               Trimmed(s.permits[i], permits[i]) && PermitOk(s.ledger, s.permits[i])
    ensures BoundOnce(l, permits)
  {
    forall i, key | 0 <= i < |permits| && Uncertain(l, permits[i], key)
      ensures Uncertain(s.ledger, s.permits[i], key)
    {
      StateAdvances(s.ledger, l, permits[i].receipt.value.reference);
    }
  }

  /** Trimmed permits under a ledger that advanced. */
  lemma TrimmingKeeps(s: Store, s': Store)
    requires StoreInv(s) && Keeps(s.ledger, s'.ledger)
    requires s'.revisions == s.revisions && |s'.permits| == |s.permits|
    requires forall i | 0 <= i < |s.permits| ::
               Trimmed(s.permits[i], s'.permits[i]) && PermitOk(s'.ledger, s'.permits[i])
    ensures StoreKeeps(s, s')
  {
    hide Conserved, WithinLimits, Chains, Fenced, AttemptsCounted, RowOk, UniqueReferences, Advances;
    hide PermitOk, Succession, OwnReceipts, BoundOnce, AllowanceCounted;
    SameSuccession(s, s'.ledger, s'.permits);
    SameAllowance(s.permits, s'.permits);
    SameReceipts(s.permits, s'.permits);
    SameBindings(s, s'.ledger, s'.permits);
  }

  /** Settling one receipt, with the trigger that retires its binding. */
  lemma WithLedgerKeeps(s: Store, reference: string, l: Ledger)
    requires StoreInv(s) && Keeps(s.ledger, l)
    ensures StoreKeeps(s, WithLedger(s, reference, l))
    ensures StateOf(s.ledger, reference) == Some(Unknown) && Resolved(StateOf(l, reference)) ==>
              forall p <- WithLedger(s, reference, l).permits | Outstanding(p) && Refers(p, reference) ::
                p.requestKey.None?
  {
    hide Conserved, WithinLimits, Chains, Fenced, AttemptsCounted, RowOk, Evolves, FindLast;
    hide Succession, OwnReceipts, BoundOnce, AllowanceCounted;
    var s' := WithLedger(s, reference, l);
    forall i | 0 <= i < |s.permits|
      ensures PermitOk(l, s'.permits[i])
    {
      assert PermitOk(s.ledger, s.permits[i]);
      if s.permits[i].consumed {
        StateAdvances(s.ledger, l, s.permits[i].receipt.value.reference);
      }
    }
    TrimmingKeeps(s, s');
  }

  /** Retiring a completed job's binding keeps the store. */
  lemma RetireKeeps(s: Store, reference: string)
    requires StoreInv(s)
    ensures StoreKeeps(s, s.(permits := Retire(s.permits, reference)))
  {
    var s' := s.(permits := Retire(s.permits, reference));
    forall i | 0 <= i < |s.permits|
      ensures PermitOk(s'.ledger, s'.permits[i])
    {
      assert PermitOk(s.ledger, s.permits[i]);
    }
    TrimmingKeeps(s, s');
  }

  // ---- Issue and publish --------------------------------------------------------

  /** The latest permit allows a successor; every earlier one then precedes it too. */
  lemma IssuedSupersedes(s: Store, a: Attempt, maxAttempts: nat, at: Clock, token: string, i: nat)
    requires StoreInv(s) && IssueIn(s, a, maxAttempts, at, token).Ok?
    requires i < |s.permits| && s.permits[i].attempt.invocation == a.invocation
    ensures Supersedes(s.ledger, s.permits[i], Permit(a, token, 0, false, InFlight, None, None, None))
  {
    LatestIsLast(s, a.invocation);
    var latest := LatestPermit(s.permits, a.invocation).value;
    assert PermitOk(s.ledger, s.permits[latest]);
    if i != latest {
      assert Supersedes(s.ledger, s.permits[i], s.permits[latest]);
    }
  }

  lemma ReceiptsUnchanged(s: Store)
    ensures Advances(s.ledger.receipts, s.ledger.receipts)
  {
  }

  lemma AppendKeepsPairs(l: Ledger, permits: seq<Permit>, p: Permit)
    requires Succession(l, permits) && OwnReceipts(permits) && BoundOnce(l, permits)
    requires p.receipt.None? && p.requestKey.None?
    requires forall i | 0 <= i < |permits| && permits[i].attempt.invocation == p.attempt.invocation ::
               Supersedes(l, permits[i], p)
    ensures Succession(l, permits + [p]) && OwnReceipts(permits + [p]) && BoundOnce(l, permits + [p])
  {
  }

  lemma AppendPermitKeeps(s: Store, p: Permit)
    requires StoreInv(s) && !p.consumed && PermitOk(s.ledger, p) && RevisionOk(s.revisions, p)
    requires AllowanceCounted(s.permits + [p])
    requires forall i | 0 <= i < |s.permits| && s.permits[i].attempt.invocation == p.attempt.invocation ::
               Supersedes(s.ledger, s.permits[i], p)
    ensures StoreKeeps(s, s.(permits := s.permits + [p]))
  {
    ReceiptsUnchanged(s);
    AppendKeepsPairs(s.ledger, s.permits, p);
    hide LedgerInv, Advances, Succession, AllowanceCounted, OwnReceipts, BoundOnce, PermitOk;
  }

  lemma IssueShape(s: Store, a: Attempt, maxAttempts: nat, at: Clock, token: string)
    requires IssueIn(s, a, maxAttempts, at, token).Ok?
    ensures var latest := LatestPermit(s.permits, a.invocation);
            var carried := if latest.Some? then s.permits[latest.value].acceptedAttempts else 0;
            && IssueIn(s, a, maxAttempts, at, token).value
               == s.(permits := s.permits + [Permit(a, token, carried, false, InFlight, None, None, None)])
            && CurrentRevision(s, a)
            && carried < maxAttempts
  {
  }

  lemma IssueKeeps(s: Store, a: Attempt, maxAttempts: nat, at: Clock, token: string)
    requires StoreInv(s)
    ensures var result := IssueIn(s, a, maxAttempts, at, token);
            result.Ok? ==>
              && StoreKeeps(s, result.value)
              && result.value.ledger == s.ledger
              && (forall p <- result.value.permits :: p in s.permits || p.receipt.None?)
  {
    var result := IssueIn(s, a, maxAttempts, at, token);
    if result.Ok? {
      hide LedgerInv, RegistryInv, StoreAdvances, IssueIn;
      IssueShape(s, a, maxAttempts, at, token);
      var p := result.value.permits[|s.permits|];
      forall i | 0 <= i < |s.permits| && s.permits[i].attempt.invocation == a.invocation
        ensures Supersedes(s.ledger, s.permits[i], p)
      {
        IssuedSupersedes(s, a, maxAttempts, at, token, i);
      }
      CarriedAllowance(s, a.invocation);
      AllowanceHolds(s);
      AppendAllowance(s.permits, p);
      AppendPermitKeeps(s, p);
    }
  }

  lemma AllowanceHolds(s: Store)
    requires StoreInv(s)
    ensures AllowanceCounted(s.permits)
  {
  }

  /** The allowance a successor inherits is the count of consumed permits so far. */
  lemma CarriedAllowance(s: Store, invocation: InvocationKey)
    requires StoreInv(s)
    ensures var latest := LatestPermit(s.permits, invocation);
            Count(s.permits, ConsumedIn(invocation))
            == if latest.Some? then s.permits[latest.value].acceptedAttempts else 0
  {
    LatestIsLast(s, invocation);
    if LatestPermit(s.permits, invocation).None? {
      CountZero(s.permits, ConsumedIn(invocation));
    }
  }

  lemma AppendAllowance(permits: seq<Permit>, p: Permit)
    requires AllowanceCounted(permits) && !p.consumed
    requires p.acceptedAttempts == Count(permits, ConsumedIn(p.attempt.invocation))
    ensures AllowanceCounted(permits + [p])
  {
    var permits' := permits + [p];
    forall i | IsLatest(permits', i)
      ensures permits'[i].acceptedAttempts
           == Count(permits', ConsumedIn(permits'[i].attempt.invocation))
    {
      var invocation := permits'[i].attempt.invocation;
      CountAppend(permits, p, ConsumedIn(invocation));
      if i < |permits| {
        forall k | i < k < |permits|
          ensures permits[k].attempt.invocation != invocation
        {
          assert permits'[k].attempt.invocation != permits'[i].attempt.invocation;
        }
        assert IsLatest(permits, i);
      }
    }
  }

  lemma PublishKeeps(s: Store, grant: GrantKey, revision: nat)
    requires StoreInv(s)
    ensures var result := Publish(s, grant, revision);
            result.Ok? ==> StoreKeeps(s, result.value)
  {
  }

  // ---- Accept -------------------------------------------------------------------

  lemma UpdateKeepsSuccession(l: Ledger, permits: seq<Permit>, i: nat, p: Permit)
    requires Succession(l, permits) && i < |permits| && p.attempt == permits[i].attempt
    requires forall j | i < j < |permits| && permits[j].attempt.invocation == p.attempt.invocation ::
               Supersedes(l, p, permits[j])
    ensures Succession(l, permits[i := p])
  {
    var permits' := permits[i := p];
    forall j, k | 0 <= j < k < |permits'| && permits'[j].attempt.invocation == permits'[k].attempt.invocation
      ensures Supersedes(l, permits'[j], permits'[k])
    {
      assert Supersedes(l, permits[j], permits[k]);
    }
  }

  /** `p` shares its receipt with no other permit, nor an uncertain request key. */
  ghost predicate Alone(l: Ledger, permits: seq<Permit>, i: nat, p: Permit) {
    forall j | 0 <= j < |permits| && j != i ::
      && (p.requestKey.Some? ==> !Uncertain(l, permits[j], p.requestKey.value))
      && (p.receipt.Some? ==> !Refers(permits[j], p.receipt.value.reference))
  }

  lemma UpdateKeepsOwnership(l: Ledger, permits: seq<Permit>, i: nat, p: Permit)
    requires OwnReceipts(permits) && BoundOnce(l, permits) && i < |permits| && Alone(l, permits, i, p)
    ensures OwnReceipts(permits[i := p]) && BoundOnce(l, permits[i := p])
  {
    hide FindLast, Outstanding;
  }

  /** Replacing one permit by an evolved one. */
  lemma UpdatePermitKeeps(s: Store, i: nat, p: Permit)
    requires StoreInv(s) && i < |s.permits| && PermitEvolves(s.permits[i], p)
    requires PermitOk(s.ledger, p) && AllowanceCounted(s.permits[i := p]) && Alone(s.ledger, s.permits, i, p)
    requires forall j | i < j < |s.permits| && s.permits[j].attempt.invocation == p.attempt.invocation ::
               Supersedes(s.ledger, p, s.permits[j])
    ensures StoreKeeps(s, s.(permits := s.permits[i := p]))
  {
    var permits' := s.permits[i := p];
    assert Succession(s.ledger, permits') by { UpdateKeepsSuccession(s.ledger, s.permits, i, p); }
    assert OwnReceipts(permits') && BoundOnce(s.ledger, permits') by {
      UpdateKeepsOwnership(s.ledger, s.permits, i, p);
    }
    assert Advances(s.ledger.receipts, s.ledger.receipts) by { ReceiptsUnchanged(s); }
    forall j | 0 <= j < |permits'|
      ensures PermitOk(s.ledger, permits'[j]) && RevisionOk(s.revisions, permits'[j])
      ensures PermitEvolves(s.permits[j], permits'[j])
    {
    }
  }

  /** Consuming the latest permit for a receipt of its own. */
  lemma AcceptKeeps(s: Store, a: Attempt, token: string, reference: string, maxAttempts: nat, now: nat)
    requires StoreInv(s)
    requires StateOf(s.ledger, reference) == Some(Unknown)
    requires forall p <- s.permits :: !Refers(p, reference)
    ensures var result := AcceptIn(s, a, token, reference, maxAttempts, now);
            result.Ok? ==> StoreKeeps(s, result.value)
  {
    var result := AcceptIn(s, a, token, reference, maxAttempts, now);
    if result.Ok? {
      var i := FindLast(s.permits, Pending(a, token)).value;
      assert Pending(a, token)(s.permits[i]) && PermitOk(s.ledger, s.permits[i]);
      var p := result.value.permits[i];
      AcceptedIsLatest(s, i);
      AcceptedAllowance(s.permits, i, p);
      UpdatePermitKeeps(s, i, p);
    }
  }

  /** A permit that is not superseded is the latest of its invocation. */
  lemma AcceptedIsLatest(s: Store, i: nat)
    requires StoreInv(s) && i < |s.permits| && !Superseded(s.permits, s.permits[i].attempt)
    ensures IsLatest(s.permits, i)
  {
    var a := s.permits[i].attempt;
    forall k | i < k < |s.permits|
      ensures s.permits[k].attempt.invocation != a.invocation
    {
      assert !After(a.invocation, a.ordinal)(s.permits[k]);
      assert s.permits[k].attempt.invocation == a.invocation ==>
               Supersedes(s.ledger, s.permits[i], s.permits[k]);
    }
  }

  lemma AcceptedAllowance(permits: seq<Permit>, i: nat, p: Permit)
    requires AllowanceCounted(permits) && IsLatest(permits, i) && !permits[i].consumed
    requires p.attempt == permits[i].attempt && p.consumed
    requires p.acceptedAttempts == permits[i].acceptedAttempts + 1
    ensures AllowanceCounted(permits[i := p])
  {
    var permits' := permits[i := p];
    forall j | IsLatest(permits', j)
      ensures permits'[j].acceptedAttempts
           == Count(permits', ConsumedIn(permits'[j].attempt.invocation))
    {
      var invocation := permits[j].attempt.invocation;
      forall k | j < k < |permits|
        ensures permits[k].attempt.invocation != invocation
      {
        assert permits'[k].attempt.invocation != permits'[j].attempt.invocation;
      }
      assert IsLatest(permits, j);
      CountUpdate(permits, i, p, ConsumedIn(invocation));
    }
  }

  /** Two steps that each keep the store keep it together. */
  lemma Chain(a: Store, b: Store, c: Store)
    requires StoreInv(a) && StoreKeeps(a, b) && StoreKeeps(b, c)
    ensures StoreKeeps(a, c)
  {
    StoreAdvancesTransitive(a, b, c);
  }

  /** Acceptance does not read the ledger, so reserving first gives the same store. */
  lemma AcceptCommutes(s: Store, l: Ledger, a: Attempt, token: string, reference: string,
                       maxAttempts: nat, now: nat)
    ensures var before := AcceptIn(s, a, token, reference, maxAttempts, now);
            var after := AcceptIn(s.(ledger := l), a, token, reference, maxAttempts, now);
            before.Ok? ==> after == Ok(before.value.(ledger := l))
  {
  }

  lemma ConsumeShape(s: Store, a: Attempt, token: string, handoff: Handoff, maxAttempts: nat, now: nat)
    ensures var result := Consume(s, a, token, handoff, maxAttempts, now);
            var accepted := AcceptIn(s, a, token, handoff.reservation.reference, maxAttempts, now);
            var reserved := Reserve(s.ledger, handoff.reservation, None, Some(handoff.inputIdentity));
            result.Ok? ==>
              && accepted.Ok? && reserved.Ok? && reserved.value.0
              && result.value == accepted.value.(ledger := reserved.value.1)
  {
    hide Reserve, FindLast;
  }

  lemma ConsumeKeeps(s: Store, a: Attempt, token: string, handoff: Handoff, maxAttempts: nat, now: nat)
    requires StoreInv(s)
    ensures var result := Consume(s, a, token, handoff, maxAttempts, now);
            result.Ok? ==> StoreKeeps(s, result.value)
  {
    hide Consume, Reserve, LedgerInv, RegistryInv, StoreAdvances, AcceptIn, FindLast, Advances, StateOf;
    var result := Consume(s, a, token, handoff, maxAttempts, now);
    ConsumeShape(s, a, token, handoff, maxAttempts, now);
    if result.Ok? {
      var r := handoff.reservation;
      var l := Reserve(s.ledger, r, None, Some(handoff.inputIdentity)).value.1;
      ReserveKeeps(s.ledger, r, None, Some(handoff.inputIdentity));
      FreshReceipt(s, l, r);
      LedgerKeeps(s, l);
      AcceptCommutes(s, l, a, token, r.reference, maxAttempts, now);
      AcceptKeeps(s.(ledger := l), a, token, r.reference, maxAttempts, now);
      Chain(s, s.(ledger := l), result.value);
    }
  }

  lemma AcceptJobInKeeps(s: Store, a: Attempt, reference: string, maxAttempts: nat, at: Clock,
                         token: string)
    requires StoreInv(s)
    requires StateOf(s.ledger, reference) == Some(Unknown)
    requires forall p <- s.permits :: !Refers(p, reference)
    ensures var result := AcceptJobIn(s, a, reference, maxAttempts, at, token);
            result.Ok? ==> StoreKeeps(s, result.value)
  {
    var result := AcceptJobIn(s, a, reference, maxAttempts, at, token);
    if result.Ok? {
      hide LedgerInv, RegistryInv, StoreAdvances, AcceptIn, IssueIn, FindLast, StateOf;
      var existing := Newest(s.permits, AtOrdinal(a.invocation, a.ordinal));
      if existing.Some? {
        AcceptKeeps(s, a, existing.value.token, reference, maxAttempts, at.third);
      } else {
        IssueKeeps(s, a, maxAttempts, at, token);
        var issued := IssueIn(s, a, maxAttempts, at, token).value;
        AcceptKeeps(issued, a, token, reference, maxAttempts, at.third);
        Chain(s, issued, result.value);
      }
    }
  }

  lemma AcceptJobKeeps(s: Store, a: Attempt, r: Reservation, attemptLimit: u32, maxAttempts: nat,
                       at: Clock, token: string)
    requires StoreInv(s)
    ensures var result := AcceptJob(s, a, r, attemptLimit, maxAttempts, at, token);
            result.Ok? ==> StoreKeeps(s, result.value)
  {
    var result := AcceptJob(s, a, r, attemptLimit, maxAttempts, at, token);
    if result.Ok? {
      hide Reserve, LedgerInv, RegistryInv, StoreAdvances, AcceptJobIn, FindLast, Advances;
      var (_, l) := Reserve(s.ledger, r, Some(attemptLimit), None).value;
      ReserveKeeps(s.ledger, r, Some(attemptLimit), None);
      FreshReceipt(s, l, r);
      LedgerKeeps(s, l);
      AcceptJobInKeeps(s.(ledger := l), a, r.reference, maxAttempts, at, token);
      Chain(s, s.(ledger := l), result.value);
    }
  }

  // ---- Binding and completion ---------------------------------------------------

  lemma FailuresKeep(s: Store, failures: map<string, Failure>)
    requires StoreInv(s)
    ensures StoreKeeps(s, s.(failures := failures))
  {
    hide LedgerInv, Succession, OwnReceipts, BoundOnce, AllowanceCounted, PermitOk;
    ReceiptsUnchanged(s);
  }

  lemma AdmitShape(s: Store, a: Attempt, key: string, policy: Option<BudgetPolicy>, now: nat)
    requires Admit(s, a, key, policy, now).Ok?
    ensures var found := FindLast(s.permits, InFlightFor(a));
            var s' := Admit(s, a, key, policy, now).value.0;
            && FindLast(s.permits, UnresolvedFor(s.ledger, key)).None?
            && found.Some?
            && s' == s.(permits := s.permits[found.value := s.permits[found.value].(requestKey := Some(key))],
                        failures := s'.failures)
  {
  }

  /** An admitted permit is the only uncertain one for its key. */
  lemma AdmitKeeps(s: Store, a: Attempt, key: string, policy: Option<BudgetPolicy>, now: nat)
    requires StoreInv(s)
    ensures var result := Admit(s, a, key, policy, now);
            result.Ok? ==> StoreKeeps(s, result.value.0)
  {
    var result := Admit(s, a, key, policy, now);
    if result.Ok? {
      hide LedgerInv, RegistryInv, StoreAdvances, FindLast, Admit;
      AdmitShape(s, a, key, policy, now);
      HandedOutInFlight(s, a);
      var i := FindLast(s.permits, InFlightFor(a)).value;
      BindKeeps(s, i, key);
      var s1 := s.(permits := result.value.0.permits);
      FailuresKeep(s1, result.value.0.failures);
      Chain(s, s1, result.value.0);
    }
  }

  lemma BindKeeps(s: Store, i: nat, key: string)
    requires StoreInv(s) && i < |s.permits| && Outstanding(s.permits[i]) && PermitOk(s.ledger, s.permits[i])
    requires FindLast(s.permits, UnresolvedFor(s.ledger, key)).None?
    ensures StoreKeeps(s, s.(permits := s.permits[i := s.permits[i].(requestKey := Some(key))]))
  {
    hide LedgerInv, RegistryInv, StoreAdvances, FindLast;
    var p := s.permits[i].(requestKey := Some(key));
    AdmittedAlone(s, key, i);
    AllowanceHolds(s);
    SameAllowance(s.permits, s.permits[i := p]);
    BindingSucceeds(s, i, key);
    UpdatePermitKeeps(s, i, p);
  }

  lemma BindingSucceeds(s: Store, i: nat, key: string)
    requires StoreInv(s) && i < |s.permits|
    ensures forall j | i < j < |s.permits|
                       && s.permits[j].attempt.invocation == s.permits[i].attempt.invocation ::
              Supersedes(s.ledger, s.permits[i].(requestKey := Some(key)), s.permits[j])
  {
    forall j | i < j < |s.permits| && s.permits[j].attempt.invocation == s.permits[i].attempt.invocation
      ensures Supersedes(s.ledger, s.permits[i].(requestKey := Some(key)), s.permits[j])
    {
      assert Supersedes(s.ledger, s.permits[i], s.permits[j]);
    }
  }

  lemma AdmittedAlone(s: Store, key: string, i: nat)
    requires StoreInv(s) && i < |s.permits| && s.permits[i].consumed
    requires FindLast(s.permits, UnresolvedFor(s.ledger, key)).None?
    ensures Alone(s.ledger, s.permits, i, s.permits[i].(requestKey := Some(key)))
  {
    hide LedgerInv, Succession, BoundOnce, AllowanceCounted;
    forall j | 0 <= j < |s.permits| && j != i
      ensures !Uncertain(s.ledger, s.permits[j], key)
      ensures s.permits[i].receipt.Some? ==>
                !Refers(s.permits[j], s.permits[i].receipt.value.reference)
    {
      assert !UnresolvedFor(s.ledger, key)(s.permits[j]);
      assert PermitOk(s.ledger, s.permits[i]) && PermitOk(s.ledger, s.permits[j]);
    }
  }

  /** A resolved receipt refuses a late success: the answer would contradict the ledger. */
  lemma LateSuccessRefused(s: Store, a: Attempt, e: Execution, mode: AnswerRecovery,
                           budget: Option<BudgetAdmission>, at: Clock)
    requires HandedOut(s, a).Some? && e.Answered? && e.accepted
    requires StateOf(s.ledger, HandedOut(s, a).value.stored.reference) == Some(Released)
    ensures Complete(s, a, e, mode, budget, at).Err?
  {
  }

  /** The attempt in flight is consumed and refers to a receipt. */
  lemma HandedOutInFlight(s: Store, a: Attempt)
    requires StoreInv(s) && FindLast(s.permits, InFlightFor(a)).Some?
    ensures var i := FindLast(s.permits, InFlightFor(a)).value;
            && s.permits[i].attempt == a && Outstanding(s.permits[i])
            && s.permits[i].receipt.Some? && s.permits[i].result.None?
            && PermitOk(s.ledger, s.permits[i])
            && HandedOut(s, a)
               == Some(DispatchReceipt(a, s.permits[i].receipt.value, Usage(false, NoCost, ""), Unknown))
  {
    var i := FindLast(s.permits, InFlightFor(a)).value;
    assert InFlightFor(a)(s.permits[i]) && PermitOk(s.ledger, s.permits[i]);
  }

  /** What a completion amounts to: settle the receipt, then close the permit. */
  lemma CompletionShape(s: Store, a: Attempt, e: Execution, mode: AnswerRecovery,
                        budget: Option<BudgetAdmission>, at: Clock)
    requires StoreInv(s) && Complete(s, a, e, mode, budget, at).Ok?
    ensures var found := FindLast(s.permits, InFlightFor(a));
            && found.Some? && s.permits[found.value].receipt.Some?
            && var i, p := found.value, s.permits[found.value];
               var result := Outcome(HandedOut(s, a).value, e).0;
               var s' := Complete(s, a, e, mode, budget, at).value;
               var settled := WithLedger(s, p.receipt.value.reference, s'.ledger);
               && Keeps(s.ledger, s'.ledger)
               && s'.revisions == s.revisions
               && s'.permits == settled.permits[i := FinishedPermit(p, result, mode, at.first)]
  {
    hide LedgerInv, RegistryInv, Finish, FindLast, Advances, StateOf, FinishedPermit, WithLedger;
    HandedOutInFlight(s, a);
    var i := FindLast(s.permits, InFlightFor(a)).value;
    var p := s.permits[i];
    var (result, outputReceived) := Outcome(HandedOut(s, a).value, e);
    var reference := p.receipt.value.reference;
    FinishKeeps(s.ledger, reference, result.receipt.spendState,
                UsageEvidence(mode, result.receipt.usage, outputReceived), outputReceived);
    var s' := Complete(s, a, e, mode, budget, at).value;
    ClosedThenSettled(s, i, FinishedPermit(p, result, mode, at.first), reference, s'.ledger);
    FinishedPermitIsClosed(p, result, mode, at.first);
  }

  lemma FinishedPermitIsClosed(p: Permit, result: DispatchResult, mode: AnswerRecovery, now: nat)
    ensures FinishedPermit(p, result, mode, now).finished != InFlight
  {
  }

  /** A closed permit is no longer outstanding: settling before or after closing is the same. */
  lemma ClosedThenSettled(s: Store, i: nat, q: Permit, reference: string, l: Ledger)
    requires i < |s.permits|
    ensures var closed := s.(permits := s.permits[i := q]);
            q.finished != InFlight ==>
              WithLedger(closed, reference, l)
              == WithLedger(s, reference, l).(permits := WithLedger(s, reference, l).permits[i := q])
  {
    if q.finished != InFlight {
      ClosedThenRetired(s.permits, i, q, reference);
    }
  }

  /** A closed permit is no longer outstanding, so retiring before or after it is the same. */
  lemma ClosedThenRetired(permits: seq<Permit>, i: nat, q: Permit, reference: string)
    requires i < |permits| && q.finished != InFlight
    ensures Retire(permits[i := q], reference) == Retire(permits, reference)[i := q]
  {
  }

  lemma CompleteKeeps(s: Store, a: Attempt, e: Execution, mode: AnswerRecovery,
                      budget: Option<BudgetAdmission>, at: Clock)
    requires StoreInv(s)
    ensures var result := Complete(s, a, e, mode, budget, at);
            result.Ok? ==> StoreKeeps(s, result.value)
  {
    if Complete(s, a, e, mode, budget, at).Ok? {
      hide LedgerInv, RegistryInv, FindLast, Advances, StoreAdvances, Complete;
      CompletionShape(s, a, e, mode, budget, at);
      var s' := Complete(s, a, e, mode, budget, at).value;
      var i := FindLast(s.permits, InFlightFor(a)).value;
      var settled := WithLedger(s, s.permits[i].receipt.value.reference, s'.ledger);
      WithLedgerKeeps(s, s.permits[i].receipt.value.reference, s'.ledger);
      ClosingKeeps(s, settled, a, e, mode, budget, at);
      var closed := settled.(permits := s'.permits);
      Chain(s, settled, closed);
      FailuresKeep(closed, s'.failures);
      Chain(s, closed, s');
    }
  }

  lemma ClosingKeeps(s: Store, settled: Store, a: Attempt, e: Execution, mode: AnswerRecovery,
                     budget: Option<BudgetAdmission>, at: Clock)
    requires StoreInv(s) && Complete(s, a, e, mode, budget, at).Ok?
    requires StoreInv(settled) && |settled.permits| == |s.permits|
    requires forall j | 0 <= j < |s.permits| :: Trimmed(s.permits[j], settled.permits[j])
    requires FindLast(s.permits, InFlightFor(a)).Some?
    ensures var i := FindLast(s.permits, InFlightFor(a)).value;
            HandedOut(s, a).Some?
            && var q := FinishedPermit(s.permits[i], Outcome(HandedOut(s, a).value, e).0, mode, at.first);
               StoreKeeps(settled, settled.(permits := settled.permits[i := q]))
  {
    hide LedgerInv, RegistryInv, FindLast, Complete, StoreAdvances;
    HandedOutInFlight(s, a);
    var i := FindLast(s.permits, InFlightFor(a)).value;
    var q := FinishedPermit(s.permits[i], Outcome(HandedOut(s, a).value, e).0, mode, at.first);
    if e.Answered? && e.accepted && LedgerState(s.ledger, s.permits[i]) == Some(Released) {
      LateSuccessRefused(s, a, e, mode, budget, at);
    }
    SuccessionHolds(s);
    SuccessionHolds(settled);
    ClosedSucceeds(s, settled, i, q);
    ClosedAlone(settled, i, q);
    AllowanceHolds(settled);
    SameAllowance(settled.permits, settled.permits[i := q]);
    PermitHolds(settled, i);
    UpdatePermitKeeps(settled, i, q);
  }

  lemma PermitHolds(s: Store, i: nat)
    requires StoreInv(s) && i < |s.permits|
    ensures PermitOk(s.ledger, s.permits[i])
  {
  }

  lemma ClosedAlone(s: Store, i: nat, q: Permit)
    requires StoreInv(s) && i < |s.permits| && s.permits[i].consumed && s.permits[i].receipt.Some?
    requires q.requestKey.None? && q.receipt.Some?
    requires q.receipt.value.reference == s.permits[i].receipt.value.reference
    ensures Alone(s.ledger, s.permits, i, q)
  {
    forall j | 0 <= j < |s.permits| && j != i
      ensures !Refers(s.permits[j], q.receipt.value.reference)
    {
      assert PermitOk(s.ledger, s.permits[j]);
    }
  }

  /** A permit that is closed without contradicting the ledger still precedes its successors. */
  lemma ClosedSucceeds(s: Store, settled: Store, i: nat, q: Permit)
    requires Succession(s.ledger, s.permits) && i < |s.permits|
    requires Succession(settled.ledger, settled.permits) && |settled.permits| == |s.permits|
    requires forall j | 0 <= j < |s.permits| :: Trimmed(s.permits[j], settled.permits[j])
    requires s.permits[i].consumed && s.permits[i].receipt.Some?
    requires q.attempt == s.permits[i].attempt && q.consumed && q.receipt.Some?
    requires q.receipt.value.reference == s.permits[i].receipt.value.reference
    requires q.receipt.value.status == Succeeded ==> LedgerState(s.ledger, s.permits[i]) != Some(Released)
    ensures forall j | i < j < |s.permits|
                       && settled.permits[j].attempt.invocation == q.attempt.invocation ::
              Supersedes(settled.ledger, q, settled.permits[j])
  {
    hide FindLast;
    forall j | i < j < |s.permits| && settled.permits[j].attempt.invocation == q.attempt.invocation
      ensures Supersedes(settled.ledger, q, settled.permits[j])
    {
      assert Supersedes(s.ledger, s.permits[i], s.permits[j]);
      assert Supersedes(settled.ledger, settled.permits[i], settled.permits[j]);
    }
  }

  lemma SuccessionHolds(s: Store)
    requires StoreInv(s)
    ensures Succession(s.ledger, s.permits)
  {
  }

  lemma PurgeKeeps(s: Store, now: nat)
    requires StoreInv(s)
    ensures StoreKeeps(s, PurgeResults(s, now))
  {
    hide LedgerInv, Succession, OwnReceipts, BoundOnce, AllowanceCounted, FindLast, Expiry.Batch;
    var s' := PurgeResults(s, now);
    ReceiptsUnchanged(s);
    forall i | 0 <= i < |s.permits|
      ensures Trimmed(s.permits[i], s'.permits[i]) && PermitOk(s'.ledger, s'.permits[i])
    {
      assert PermitOk(s.ledger, s.permits[i]);
    }
    TrimmingKeeps(s, s');
  }
}
