/** Exactly when a reservation is accepted, reattached or refused, in terms of the receipts of
    its chain and its account. */
module ReserveTheorems {
  import opened Tables
  import opened Records
  import opened SpendLedger
  import opened LedgerInvariants
  import opened LedgerSteps
  import opened Runs

  // ---- Conditions on the receipts -----------------------------------------------

  predicate OfChain(row: Receipt, r: Reservation) {
    row.reservation.account == r.account && row.reservation.invocation == r.invocation
  }

  /** No receipt holds the reference. */
  ghost predicate Fresh(rows: seq<Receipt>, reference: string) {
    forall i | 0 <= i < |rows| :: rows[i].reservation.reference != reference
  }

  /** Receipt `i` is the last accepted one of the chain. */
  ghost predicate LastOf(rows: seq<Receipt>, r: Reservation, i: int) {
    && 0 <= i < |rows| && OfChain(rows[i], r)
    && forall k | i < k < |rows| :: !OfChain(rows[k], r)
  }

  ghost predicate BindingMatches(rows: seq<Receipt>, r: Reservation) {
    forall i | 0 <= i < |rows| && OfChain(rows[i], r) :: rows[i].reservation.binding == r.binding
  }

  ghost predicate NothingUnknown(rows: seq<Receipt>, r: Reservation) {
    forall i | 0 <= i < |rows| && OfChain(rows[i], r) :: rows[i].state != Unknown
  }

  /** An explicit attempt, a handoff and a successor of an explicit receipt follow only a Released
      receipt without output. */
  ghost predicate FenceOpen(rows: seq<Receipt>, r: Reservation, limit: Option<u32>, handoff: Option<string>) {
    forall i | LastOf(rows, r, i) && (limit.Some? || handoff.Some? || rows[i].attemptLimit.Some?) ::
      rows[i].state == Released && !rows[i].output
  }

  function Charged(rows: seq<Receipt>, r: Reservation): nat {
    Count(rows, ChargedIn(r.account, r.invocation))
  }

  function Held(rows: seq<Receipt>, r: Reservation): nat {
    Count(rows, HeldBy(r.account))
  }

  /** `ceiling` is the chain's: the one it froze, or the one now asked for. */
  ghost predicate IsCeiling(rows: seq<Receipt>, r: Reservation, limit: Option<u32>, ceiling: Option<u32>) {
    if exists i :: LastOf(rows, r, i) && rows[i].attemptLimit.Some?
    then exists i :: LastOf(rows, r, i) && rows[i].attemptLimit == ceiling
    else ceiling == limit
  }

  ghost predicate BelowCeiling(rows: seq<Receipt>, r: Reservation, limit: Option<u32>) {
    forall ceiling | IsCeiling(rows, r, limit, ceiling) && ceiling.Some? :: Charged(rows, r) < ceiling.value
  }

  /** The request limit, when given, is one the table can hold. */
  predicate LimitStorable(r: Reservation) {
    r.requestLimit.Some? ==> r.requestLimit.value <= I64_MAX
  }

  predicate BelowLimit(rows: seq<Receipt>, r: Reservation) {
    Held(rows, r) < I64_MAX && (r.requestLimit.Some? ==> Held(rows, r) < r.requestLimit.value)
  }

  ghost predicate ChainOpen(rows: seq<Receipt>, r: Reservation, limit: Option<u32>, handoff: Option<string>) {
    BindingMatches(rows, r) && NothingUnknown(rows, r) && FenceOpen(rows, r, limit, handoff)
  }

  /** Everything a fresh reference needs to be accepted. */
  ghost predicate Acceptable(rows: seq<Receipt>, r: Reservation, limit: Option<u32>, handoff: Option<string>) {
    && ChainOpen(rows, r, limit, handoff)
    && BelowCeiling(rows, r, limit)
    && LimitStorable(r) && BelowLimit(rows, r)
  }

  // ---- Reading them off the newest receipt --------------------------------------

  lemma LastIsFound(rows: seq<Receipt>, r: Reservation)
    ensures var found := FindLast(rows, InChain(r.account, r.invocation));
            && (found.Some? ==> forall i :: LastOf(rows, r, i) <==> i == found.value)
            && (found.None? ==> forall i :: !LastOf(rows, r, i))
            && (found.None? ==> forall i | 0 <= i < |rows| :: !OfChain(rows[i], r))
  {
    var found := FindLast(rows, InChain(r.account, r.invocation));
    forall i | 0 <= i < |rows|
      ensures InChain(r.account, r.invocation)(rows[i]) <==> OfChain(rows[i], r)
    {
    }
    hide FindLast;
    if found.Some? {
      assert InChain(r.account, r.invocation)(rows[found.value]);
      assert forall k | found.value < k < |rows| :: !InChain(r.account, r.invocation)(rows[k]);
    } else {
      assert forall k | 0 <= k < |rows| :: !InChain(r.account, r.invocation)(rows[k]);
    }
  }

  lemma BindingOfLast(rows: seq<Receipt>, r: Reservation)
    requires Chains(rows)
    ensures var previous := Newest(rows, InChain(r.account, r.invocation));
            BindingMatches(rows, r) <==> previous.None? || previous.value.reservation.binding == r.binding
  {
    LastIsFound(rows, r);
    var found := FindLast(rows, InChain(r.account, r.invocation));
    hide FindLast;
    if found.Some? {
      var n := found.value;
      assert LastOf(rows, r, n);
      forall i | 0 <= i < |rows| && OfChain(rows[i], r)
        ensures rows[i].reservation.binding == rows[n].reservation.binding
      {
        if i != n {
          assert !(n < i);
          assert Chained(rows[i], rows[n]) && Precedes(rows[i], rows[n]);
        }
      }
    }
  }

  lemma UnknownIsFound(rows: seq<Receipt>, r: Reservation)
    ensures FindLast(rows, UnknownIn(r.account, r.invocation)).None? <==> NothingUnknown(rows, r)
  {
    var found := FindLast(rows, UnknownIn(r.account, r.invocation));
    if found.Some? {
      assert UnknownIn(r.account, r.invocation)(rows[found.value]);
    } else {
      assert forall i | 0 <= i < |rows| :: !UnknownIn(r.account, r.invocation)(rows[i]);
    }
  }

  lemma ReferenceIsFound(rows: seq<Receipt>, reference: string)
    ensures FindLast(rows, HasReference(reference)).None? <==> Fresh(rows, reference)
  {
    var found := FindLast(rows, HasReference(reference));
    if found.Some? {
      assert HasReference(reference)(rows[found.value]);
    } else {
      assert forall i | 0 <= i < |rows| :: !HasReference(reference)(rows[i]);
    }
  }

  /** The newest receipt, its ceiling and its tally. */
  lemma CeilingOfLast(rows: seq<Receipt>, r: Reservation, limit: Option<u32>, ceiling: Option<u32>)
    ensures var previous := Newest(rows, InChain(r.account, r.invocation));
            IsCeiling(rows, r, limit, ceiling)
            <==> ceiling == if previous.Some? && previous.value.attemptLimit.Some? then previous.value.attemptLimit
                            else limit
  {
    LastIsFound(rows, r);
    hide FindLast, LastOf;
    var found := FindLast(rows, InChain(r.account, r.invocation));
    if found.Some? {
      assert LastOf(rows, r, found.value);
    }
  }

  lemma ChargedOfLast(l: Ledger, r: Reservation)
    requires LedgerInv(l)
    ensures var previous := Newest(l.receipts, InChain(r.account, r.invocation));
            Charged(l.receipts, r) == if previous.Some? then previous.value.attemptsUsed else 0
  {
    var found := FindLast(l.receipts, InChain(r.account, r.invocation));
    if found.Some? {
      assert InChain(r.account, r.invocation)(l.receipts[found.value]);
      ChargedSoFar(l.receipts, found.value);
    } else {
      ImplicitChainIsUncharged(l.receipts, r.account, r.invocation);
    }
  }

  lemma FenceOfLast(rows: seq<Receipt>, r: Reservation, limit: Option<u32>, handoff: Option<string>)
    ensures var previous := Newest(rows, InChain(r.account, r.invocation));
            FenceOpen(rows, r, limit, handoff)
            <==> (previous.Some? && (limit.Some? || handoff.Some? || previous.value.attemptLimit.Some?)
                  ==> previous.value.state == Released && !previous.value.output)
  {
    LastIsFound(rows, r);
    hide FindLast, LastOf;
    var found := FindLast(rows, InChain(r.account, r.invocation));
    if found.Some? {
      assert LastOf(rows, r, found.value);
    }
  }

  /** With nothing Unknown in the chain its newest receipt is resolved. */
  lemma LastIsResolved(rows: seq<Receipt>, r: Reservation)
    requires NothingUnknown(rows, r)
    ensures var previous := Newest(rows, InChain(r.account, r.invocation));
            previous.Some? ==> previous.value.state != Unknown
  {
    var found := FindLast(rows, InChain(r.account, r.invocation));
    if found.Some? {
      assert InChain(r.account, r.invocation)(rows[found.value]);
    }
  }

  // ---- The decision -------------------------------------------------------------

  lemma NextReceiptExactlyWhen(l: Ledger, r: Reservation, limit: Option<u32>, handoff: Option<string>)
    requires LedgerInv(l)
    ensures var result := NextReceipt(l, r, limit, handoff);
            var rows := l.receipts;
            && (result.Ok?
                <==> NothingUnknown(rows, r) && FenceOpen(rows, r, limit, handoff) && BelowCeiling(rows, r, limit))
            && (result == Err(AttemptBudgetExhausted)
                <==> NothingUnknown(rows, r) && FenceOpen(rows, r, limit, handoff) && !BelowCeiling(rows, r, limit))
            && (result == Err(InvocationCompleted)
                <==> exists i :: LastOf(rows, r, i) && rows[i].output && (limit.Some? || rows[i].attemptLimit.Some?))
            && (result.Err? ==> result.error in {Conflict, AttemptBudgetExhausted, InvocationCompleted})
  {
    hide LedgerInv, FindLast, LastOf, NothingUnknown, FenceOpen, IsCeiling, Charged;
    var rows := l.receipts;
    var previous := Newest(rows, InChain(r.account, r.invocation));
    var found := FindLast(rows, InChain(r.account, r.invocation));
    LastIsFound(rows, r);
    UnknownIsFound(rows, r);
    FenceOfLast(rows, r, limit, handoff);
    ChargedOfLast(l, r);
    var ceiling := if previous.Some? && previous.value.attemptLimit.Some? then previous.value.attemptLimit else limit;
    forall c
      ensures IsCeiling(rows, r, limit, c) <==> c == ceiling
    {
      CeilingOfLast(rows, r, limit, c);
    }
    assert IsCeiling(rows, r, limit, ceiling);
    if NothingUnknown(rows, r) {
      LastIsResolved(rows, r);
    }
    if found.Some? {
      assert LastOf(rows, r, found.value);
    }
  }

  lemma ChargeExactlyWhen(l: Ledger, row: Receipt)
    requires LedgerInv(l)
    ensures var result := Charge(l, row);
            var r := row.reservation;
            && (result.Ok? <==> LimitStorable(r) && BelowLimit(l.receipts, r))
            && (result == Err(SpendBudgetExhausted) <==> LimitStorable(r) && !BelowLimit(l.receipts, r))
            && (result.Ok? ==> Used(result.value, r.account) == Held(l.receipts, r) + 1)
            && (result.Err? ==> result.error in {Storage, SpendBudgetExhausted})
  {
    assert Used(l, row.reservation.account) == Count(l.receipts, HeldBy(row.reservation.account));
    hide LedgerInv, Count;
  }

  /** The row an accepted reservation adds. */
  ghost predicate IsAcceptedRow(rows: seq<Receipt>, r: Reservation, limit: Option<u32>, handoff: Option<string>,
                                row: Receipt)
  {
    && row.reservation == r && row.state == Unknown && row.usage.None? && !row.output
    && row.handoffInput == handoff && row.dispatchOwner.None? && !row.preDispatchReleased && row.recovery.None?
    && IsCeiling(rows, r, limit, row.attemptLimit)
    && row.attemptsUsed == if row.attemptLimit.Some? then Charged(rows, r) + 1 else 0
  }

  lemma NextReceiptRow(l: Ledger, r: Reservation, limit: Option<u32>, handoff: Option<string>)
    requires LedgerInv(l) && NextReceipt(l, r, limit, handoff).Ok?
    ensures IsAcceptedRow(l.receipts, r, limit, handoff, NextReceipt(l, r, limit, handoff).value)
  {
    hide LedgerInv, FindLast, IsCeiling, Charged;
    ChargedOfLast(l, r);
    CeilingOfLast(l.receipts, r, limit, NextReceipt(l, r, limit, handoff).value.attemptLimit);
  }

  /** A fresh reference is accepted if and only if its chain is open and it stays below the frozen
      ceiling and the request limit; the refusals for a completed invocation, a used up ceiling and
      a used up limit are told apart; acceptance takes one request and appends one row. */
  lemma FreshAcceptedExactlyWhen(l: Ledger, r: Reservation, limit: Option<u32>, handoff: Option<string>)
    requires LedgerInv(l) && Fresh(l.receipts, r.reference)
    ensures var result := Reserve(l, r, limit, handoff);
            var rows := l.receipts;
            && (result.Ok? <==> Acceptable(rows, r, limit, handoff))
            && (result == Err(InvocationCompleted)
                <==> BindingMatches(rows, r)
                     && exists i :: LastOf(rows, r, i) && rows[i].output && (limit.Some? || rows[i].attemptLimit.Some?))
            && (result == Err(AttemptBudgetExhausted)
                <==> ChainOpen(rows, r, limit, handoff) && !BelowCeiling(rows, r, limit))
            && (result == Err(SpendBudgetExhausted)
                <==> ChainOpen(rows, r, limit, handoff) && BelowCeiling(rows, r, limit) && LimitStorable(r)
                     && !BelowLimit(rows, r))
            && (result.Ok? ==>
                  && result.value.0
                  && |result.value.1.receipts| == |rows| + 1 && result.value.1.receipts[..|rows|] == rows
                  && IsAcceptedRow(rows, r, limit, handoff, result.value.1.receipts[|rows|])
                  && Used(result.value.1, r.account) == Held(rows, r) + 1)
  {
    var rows := l.receipts;
    assert Chains(rows);
    hide LedgerInv, FindLast, LastOf, NothingUnknown, FenceOpen, IsCeiling, Charged, BindingMatches, BelowCeiling;
    hide NextReceipt, Charge, Held, BelowLimit, IsAcceptedRow;
    BindingOfLast(rows, r);
    ReferenceIsFound(rows, r.reference);
    NextReceiptExactlyWhen(l, r, limit, handoff);
    var next := NextReceipt(l, r, limit, handoff);
    if next.Ok? {
      NextReceiptRow(l, r, limit, handoff);
      AcceptedReservation(l, r, limit, handoff);
      ChargeExactlyWhen(l, next.value);
      ChargeAppends(l, next.value);
    }
  }

  lemma AcceptedReservation(l: Ledger, r: Reservation, limit: Option<u32>, handoff: Option<string>)
    requires NextReceipt(l, r, limit, handoff).Ok?
    ensures NextReceipt(l, r, limit, handoff).value.reservation == r
  {
    hide FindLast;
  }

  lemma ChargeAppends(l: Ledger, row: Receipt)
    ensures var result := Charge(l, row);
            result.Ok? ==>
              && |result.value.receipts| == |l.receipts| + 1
              && result.value.receipts[..|l.receipts|] == l.receipts && result.value.receipts[|l.receipts|] == row
  {
  }

  /** A reference already held is reattached if and only if it is the same reservation, and
      otherwise refused. */
  lemma ReattachedExactlyWhen(l: Ledger, r: Reservation, limit: Option<u32>, handoff: Option<string>, i: nat)
    requires LedgerInv(l) && i < |l.receipts| && l.receipts[i].reservation.reference == r.reference
    ensures Reserve(l, r, limit, handoff)
         == if l.receipts[i].reservation == r then Ok((false, l)) else Err(Conflict)
  {
    var rows := l.receipts;
    BindingOfLast(rows, r);
    IndexByReference(l, i);
    if rows[i].reservation == r {
      SameBinding(l, r, i);
    }
    hide LedgerInv, FindLast, NextReceipt, Charge;
  }

  lemma SameBinding(l: Ledger, r: Reservation, i: nat)
    requires LedgerInv(l) && i < |l.receipts| && l.receipts[i].reservation == r
    ensures BindingMatches(l.receipts, r)
  {
    forall k | 0 <= k < |l.receipts| && OfChain(l.receipts[k], r)
      ensures l.receipts[k].reservation.binding == r.binding
    {
      assert k < i ==> Chained(l.receipts[k], l.receipts[i]) && Precedes(l.receipts[k], l.receipts[i]);
      assert i < k ==> Chained(l.receipts[i], l.receipts[k]) && Precedes(l.receipts[i], l.receipts[k]);
    }
  }

  // ---- Runs ---------------------------------------------------------------------

  /** In every run: a reference is accepted if and only if it is fresh, its chain is open and
      ceiling and limit leave room, and reattached if and only if exactly this reservation holds
      it already. */
  lemma ReservedExactlyWhen(events: seq<Event>, r: Reservation, limit: Option<u32>, handoff: Option<string>)
    ensures var l := Run(EMPTY_STORE, events).ledger;
            var result := Reserve(l, r, limit, handoff);
            && (result.Ok? && result.value.0
                <==> Fresh(l.receipts, r.reference) && Acceptable(l.receipts, r, limit, handoff))
            && (result.Ok? && !result.value.0
                <==> exists i :: 0 <= i < |l.receipts| && l.receipts[i].reservation == r)
  {
    Reachable(events);
    var l := Run(EMPTY_STORE, events).ledger;
    hide Run, LedgerInv, Reserve, Acceptable;
    if Fresh(l.receipts, r.reference) {
      FreshAcceptedExactlyWhen(l, r, limit, handoff);
    } else {
      var i :| 0 <= i < |l.receipts| && l.receipts[i].reservation.reference == r.reference;
      ReattachedExactlyWhen(l, r, limit, handoff, i);
      forall k | 0 <= k < |l.receipts| && l.receipts[k].reservation == r
        ensures k == i
      {
        SameReferenceSameRow(l, i, k);
      }
    }
  }

  lemma SameReferenceSameRow(l: Ledger, i: nat, k: nat)
    requires LedgerInv(l) && i < |l.receipts| && k < |l.receipts|
    requires l.receipts[i].reservation.reference == l.receipts[k].reservation.reference
    ensures i == k
  {
  }
}
