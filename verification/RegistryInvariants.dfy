/** What every reachable store satisfies across both table sets. */
module RegistryInvariants {
  import opened Tables
  import opened Records
  import opened SpendLedger
  import opened LedgerInvariants
  import opened Registry

  predicate IsReleased(l: Ledger, p: Permit) {
    p.receipt.Some? && StateOf(l, p.receipt.value.reference) == Some(Released)
  }

  /** The ledger state of the receipt a permit refers to. */
  function LedgerState(l: Ledger, p: Permit): Option<SpendState> {
    if p.receipt.Some? then StateOf(l, p.receipt.value.reference) else None
  }

  /** A consumed permit refers to a ledger receipt; a pending one carries nothing. A request
      binding ends when the dispatch finishes. */
  predicate PermitIn(state: Option<SpendState>, p: Permit) {
    if p.consumed then
      && p.receipt.Some?
      && state.Some?
      && (p.requestKey.Some? ==> p.finished == InFlight)
      && (p.finished == InFlight ==> p.receipt.value.status == ProviderFailed && p.result.None?)
      && (p.result.Some? ==> p.finished == Recoverable && p.result.value.receipt.stored == p.receipt.value)
    else
      p.receipt.None? && p.requestKey.None? && p.result.None? && p.finished == InFlight
  }

  predicate PermitOk(l: Ledger, p: Permit) {
    PermitIn(LedgerState(l, p), p)
  }

  predicate RevisionOk(revisions: map<GrantKey, nat>, p: Permit) {
    p.attempt.Grant() in revisions && p.attempt.grantRevision <= revisions[p.attempt.Grant()]
  }

  /** What the issue of `q` established about an earlier permit `p` of its invocation. */
  predicate Supersedes(l: Ledger, p: Permit, q: Permit) {
    && p.attempt.Binding() == q.attempt.Binding()
    && p.attempt.ordinal < q.attempt.ordinal
    && p.attempt.recordSequence < q.attempt.recordSequence
    && (p.consumed ==> IsReleased(l, p) && p.receipt.value.status != Succeeded)
  }

  ghost predicate Succession(l: Ledger, permits: seq<Permit>) {
    forall i, j | 0 <= i < j < |permits| && permits[i].attempt.invocation == permits[j].attempt.invocation ::
      Supersedes(l, permits[i], permits[j])
  }

  ghost predicate OwnReceipts(permits: seq<Permit>) {
    forall i, j | 0 <= i < j < |permits| && permits[i].consumed && permits[j].consumed
                  && permits[i].receipt.Some? && permits[j].receipt.Some? ::
      permits[i].receipt.value.reference != permits[j].receipt.value.reference
  }

  /** The send may have reached the provider and nothing resolved it yet. */
  predicate Uncertain(l: Ledger, p: Permit, key: string) {
    p.requestKey == Some(key) && Outstanding(p) && LedgerState(l, p) == Some(Unknown)
  }

  /** At most one uncertain send per request key. */
  ghost predicate BoundOnce(l: Ledger, permits: seq<Permit>) {
    forall i, j, key | 0 <= i < j < |permits| && Uncertain(l, permits[i], key) ::
      !Uncertain(l, permits[j], key)
  }

  ghost predicate IsLatest(permits: seq<Permit>, i: int) {
    && 0 <= i < |permits|
    && forall k | i < k < |permits| :: permits[k].attempt.invocation != permits[i].attempt.invocation
  }

  /** The latest permit carries the number of consumed permits of its invocation. */
  ghost predicate AllowanceCounted(permits: seq<Permit>) {
    forall i | IsLatest(permits, i) ::
      permits[i].acceptedAttempts == Count(permits, ConsumedIn(permits[i].attempt.invocation))
  }

  ghost predicate RegistryInv(s: Store) {
    && (forall i | 0 <= i < |s.permits| ::
          PermitOk(s.ledger, s.permits[i]) && RevisionOk(s.revisions, s.permits[i]))
    && Succession(s.ledger, s.permits)
    && OwnReceipts(s.permits)
    && BoundOnce(s.ledger, s.permits)
    && AllowanceCounted(s.permits)
  }

  ghost predicate StoreInv(s: Store) {
    LedgerInv(s.ledger) && RegistryInv(s)
  }

  // ---- How a permit may change --------------------------------------------------

  predicate PermitEvolves(p: Permit, q: Permit) {
    && q.attempt == p.attempt
    && q.token == p.token
    && (p.consumed ==> q.consumed && q.acceptedAttempts == p.acceptedAttempts)
    && (!p.consumed ==> q.acceptedAttempts == p.acceptedAttempts + if q.consumed then 1 else 0)
    && (p.receipt.Some? ==> q.receipt.Some? && q.receipt.value.reference == p.receipt.value.reference)
    && (p.finished != InFlight ==>
          && q.finished == p.finished && q.receipt == p.receipt && q.requestKey == p.requestKey
          && (q.result.Some? ==> q.result == p.result))
  }

  /** Permits are only appended or evolved, and published revisions never go down. */
  ghost predicate StoreAdvances(s: Store, s': Store) {
    && Advances(s.ledger.receipts, s'.ledger.receipts)
    && |s.permits| <= |s'.permits|
    && (forall i | 0 <= i < |s.permits| :: PermitEvolves(s.permits[i], s'.permits[i]))
    && (forall g | g in s.revisions :: g in s'.revisions && s.revisions[g] <= s'.revisions[g])
  }

  lemma StoreAdvancesTransitive(a: Store, b: Store, c: Store)
    requires StoreInv(a) && StoreAdvances(a, b) && StoreAdvances(b, c)
    ensures StoreAdvances(a, c)
  {
    AdvancesTransitive(a.ledger.receipts, b.ledger.receipts, c.ledger.receipts);
    forall i | 0 <= i < |a.permits|
      ensures PermitEvolves(a.permits[i], c.permits[i])
    {
      assert PermitEvolves(a.permits[i], b.permits[i]);
      assert PermitEvolves(b.permits[i], c.permits[i]);
    }
  }

  // ---- Lookups ------------------------------------------------------------------

  /** Advancing receipts keeps every reference, and resolved states for good. */
  lemma StateAdvances(l: Ledger, l': Ledger, reference: string)
    requires UniqueReferences(l.receipts) && UniqueReferences(l'.receipts)
    requires Advances(l.receipts, l'.receipts) && StateOf(l, reference).Some?
    ensures StateOf(l', reference).Some?
    ensures StateOf(l, reference) != Some(Unknown) ==> StateOf(l', reference) == StateOf(l, reference)
  {
    var i := ReceiptIndex(l, reference).value;
    assert HasReference(reference)(l.receipts[i]);
    assert Evolves(l.receipts[i], l'.receipts[i]);
    IndexByReference(l', i);
  }

  lemma SameAttempt(s: Store, i: nat, j: nat)
    requires RegistryInv(s) && i < |s.permits| && j < |s.permits|
    requires s.permits[i].attempt.invocation == s.permits[j].attempt.invocation
    requires s.permits[i].attempt.ordinal == s.permits[j].attempt.ordinal
    ensures i == j
  {
    assert i < j ==> Supersedes(s.ledger, s.permits[i], s.permits[j]);
    assert j < i ==> Supersedes(s.ledger, s.permits[j], s.permits[i]);
  }

  /** The permit with the greatest ordinal is the one issued last. */
  lemma LatestIsLast(s: Store, invocation: InvocationKey)
    requires RegistryInv(s)
    ensures var latest := LatestPermit(s.permits, invocation);
            latest.Some? ==> IsLatest(s.permits, latest.value)
  {
    var latest := LatestPermit(s.permits, invocation);
    if latest.Some? {
      forall k | latest.value < k < |s.permits|
        ensures s.permits[k].attempt.invocation != invocation
      {
      }
    }
  }
}
