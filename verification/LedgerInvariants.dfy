/** What every reachable ledger satisfies, and that each ledger transaction keeps it. */
module LedgerInvariants {
  import opened Tables
  import opened Records
  import opened SpendLedger

  // ---- The invariant ------------------------------------------------------------

  predicate Chained(a: Receipt, b: Receipt) {
    SameChain(a, b.reservation.account, b.reservation.invocation)
  }

  ghost predicate UniqueReferences(rows: seq<Receipt>) {
    forall i, j | 0 <= i < j < |rows| ::
      rows[i].reservation.reference != rows[j].reservation.reference
  }

  /** Each account's counter is the number of its receipts that are not Released. */
  ghost predicate Conserved(l: Ledger) {
    forall account: string :: Used(l, account) == Count(l.receipts, HeldBy(account))
  }

  predicate Capped(rows: seq<Receipt>, account: string, cap: nat) {
    forall i | 0 <= i < |rows| && rows[i].reservation.account == account ::
      rows[i].reservation.requestLimit.Some? && rows[i].reservation.requestLimit.value <= cap
  }

  /** If every reservation of an account carries a limit of at most `cap`, so does its counter. */
  ghost predicate WithinLimits(l: Ledger) {
    forall account: string, cap: nat :: Capped(l.receipts, account, cap) ==> Used(l, account) <= cap
  }

  /** What the acceptance of `b` established about every earlier receipt `a` of its chain. */
  predicate Precedes(a: Receipt, b: Receipt) {
    && a.reservation.binding == b.reservation.binding
    && a.state != Unknown
    && (a.attemptLimit.Some? ==> b.attemptLimit == a.attemptLimit && a.state == Released && !a.output)
  }

  ghost predicate Chains(rows: seq<Receipt>) {
    forall i, j | 0 <= i < j < |rows| && Chained(rows[i], rows[j]) :: Precedes(rows[i], rows[j])
  }

  /** `i` is the receipt accepted immediately before `j` in the same chain. */
  ghost predicate Adjacent(rows: seq<Receipt>, i: int, j: int) {
    && 0 <= i < j < |rows|
    && Chained(rows[i], rows[j])
    && forall k | i < k < j :: !Chained(rows[k], rows[j])
  }

  /** Explicit and handoff receipts follow only a released receipt without output. */
  ghost predicate Fenced(rows: seq<Receipt>) {
    forall i, j | Adjacent(rows, i, j) && (rows[j].attemptLimit.Some? || rows[j].handoffInput.Some?) ::
      rows[i].state == Released && !rows[i].output
  }

  ghost predicate IsNewest(rows: seq<Receipt>, i: int) {
    && 0 <= i < |rows|
    && forall k | i < k < |rows| :: !Chained(rows[k], rows[i])
  }

  /** The newest explicit receipt carries the number of attempts its chain used. */
  ghost predicate AttemptsCounted(rows: seq<Receipt>) {
    forall i | IsNewest(rows, i) && rows[i].attemptLimit.Some? :: Tally(rows, i)
  }

  ghost predicate Tally(rows: seq<Receipt>, i: int)
    requires 0 <= i < |rows| && rows[i].attemptLimit.Some?
  {
    var r := rows[i];
    && r.attemptsUsed == Count(rows, ChargedIn(r.reservation.account, r.reservation.invocation))
    && r.attemptsUsed <= r.attemptLimit.value
  }

  predicate RowOk(r: Receipt) {
    && (r.attemptLimit.None? ==> r.attemptsUsed == 0)
    && (r.preDispatchReleased ==> r.state == Released && r.usage.None?)
    && (r.state == Released ==> !r.output)
    && (r.recovery.Some? ==> r.output && r.attemptLimit.Some?)
  }

  ghost predicate LedgerInv(l: Ledger) {
    && UniqueReferences(l.receipts)
    && Conserved(l)
    && WithinLimits(l)
    && Chains(l.receipts)
    && Fenced(l.receipts)
    && AttemptsCounted(l.receipts)
    && (forall i | 0 <= i < |l.receipts| :: RowOk(l.receipts[i]))
  }

  // ---- How a receipt may change -------------------------------------------------

  /** A saved answer is kept, narrowed or erased; it appears only together with the
      completion evidence, so it is written at most once. */
  predicate AnswerNarrows(a: Receipt, b: Receipt) {
    b.recovery.Some? ==>
      if a.recovery.Some?
      then b.recovery.value.answer == a.recovery.value.answer
           && b.recovery.value.expiresAt <= a.recovery.value.expiresAt
      else !a.output && b.output
  }

  /** The only changes any transaction makes to an accepted receipt. */
  predicate Evolves(a: Receipt, b: Receipt) {
    && b.reservation == a.reservation
    && b.attemptLimit == a.attemptLimit
    && b.handoffInput == a.handoffInput
    && (a.state != Unknown ==> b.state == a.state && b.usage == a.usage && b.output == a.output)
    && (a.output ==> b.output)
    && (a.dispatchOwner.Some? ==> b.dispatchOwner == a.dispatchOwner)
    && (a.dispatchOwner.None? && b.dispatchOwner.Some? ==> a.state == Unknown && a.handoffInput.Some?)
    && (a.preDispatchReleased ==> b.preDispatchReleased)
    && AnswerNarrows(a, b)
  }

  /** Receipts are only ever appended or evolved: nothing is deleted or reordered. */
  ghost predicate Advances(rows: seq<Receipt>, rows': seq<Receipt>) {
    && |rows| <= |rows'|
    && forall i | 0 <= i < |rows| :: Evolves(rows[i], rows'[i])
  }

  lemma EvolvesTransitive(a: Receipt, b: Receipt, c: Receipt)
    requires RowOk(a) && Evolves(a, b) && Evolves(b, c)
    ensures Evolves(a, c)
  {
  }

  lemma AdvancesTransitive(a: seq<Receipt>, b: seq<Receipt>, c: seq<Receipt>)
    requires forall i | 0 <= i < |a| :: RowOk(a[i])
    requires Advances(a, b) && Advances(b, c)
    ensures Advances(a, c)
  {
    forall i | 0 <= i < |a|
      ensures Evolves(a[i], c[i])
    {
      EvolvesTransitive(a[i], b[i], c[i]);
    }
  }

  // ---- Small facts --------------------------------------------------------------

  lemma IndexByReference(l: Ledger, i: nat)
    requires i < |l.receipts| && UniqueReferences(l.receipts)
    ensures ReceiptIndex(l, l.receipts[i].reservation.reference) == Some(i)
  {
    var reference := l.receipts[i].reservation.reference;
    assert HasReference(reference)(l.receipts[i]);
  }

  /** An Unknown receipt is the newest of its chain. */
  lemma UnknownIsNewest(rows: seq<Receipt>, i: nat)
    requires i < |rows| && Chains(rows) && rows[i].state == Unknown
    ensures IsNewest(rows, i)
  {
    forall k | i < k < |rows|
      ensures !Chained(rows[k], rows[i])
    {
      assert !Chained(rows[i], rows[k]);
    }
  }

  /** Evolving rows in place keeps every property that only looks at rows pairwise. */
  lemma EvolvingKeepsChains(rows: seq<Receipt>, rows': seq<Receipt>)
    requires |rows| == |rows'| && Advances(rows, rows')
    requires UniqueReferences(rows) && Chains(rows) && Fenced(rows)
    ensures UniqueReferences(rows') && Chains(rows') && Fenced(rows')
  {
    forall i, j | 0 <= i < j < |rows'| && Chained(rows'[i], rows'[j])
      ensures Precedes(rows'[i], rows'[j])
    {
      assert Chained(rows[i], rows[j]) && Precedes(rows[i], rows[j]);
    }
    forall i, j | Adjacent(rows', i, j)
                  && (rows'[j].attemptLimit.Some? || rows'[j].handoffInput.Some?)
      ensures rows'[i].state == Released && !rows'[i].output
    {
      forall k | i < k < j
        ensures !Chained(rows[k], rows[j])
      {
        assert !Chained(rows'[k], rows'[j]);
      }
      assert Adjacent(rows, i, j);
    }
  }

  // ---- Update of one receipt ----------------------------------------------------

  /** The changes of `Evolves`, plus exact bookkeeping of a pre-dispatch release. */
  predicate ReceiptStep(a: Receipt, b: Receipt) {
    var released := b.preDispatchReleased && !a.preDispatchReleased;
    && Evolves(a, b)
    && RowOk(b)
    && (released ==> a.state == Unknown)
    && b.attemptsUsed == a.attemptsUsed - (if released && a.attemptLimit.Some? then 1 else 0)
  }

  function AfterUpdate(l: Ledger, i: nat, row: Receipt): Ledger
    requires i < |l.receipts|
  {
    var account := row.reservation.account;
    Ledger(if row.state == Released && l.receipts[i].state != Released && Used(l, account) > 0
           then l.used[account := Used(l, account) - 1] else l.used,
           l.receipts[i := row])
  }

  /** The decrement guard of a release never fails. */
  lemma HeldIsCounted(l: Ledger, i: nat)
    requires LedgerInv(l) && i < |l.receipts| && l.receipts[i].state != Released
    ensures Used(l, l.receipts[i].reservation.account) > 0
  {
    var account := l.receipts[i].reservation.account;
    assert HeldBy(account)(l.receipts[i]);
    CountZero(l.receipts, HeldBy(account));
  }

  lemma UpdateConserves(l: Ledger, i: nat, row: Receipt)
    requires LedgerInv(l) && i < |l.receipts| && ReceiptStep(l.receipts[i], row)
    ensures Conserved(AfterUpdate(l, i, row)) && WithinLimits(AfterUpdate(l, i, row))
  {
    var l' := AfterUpdate(l, i, row);
    if l.receipts[i].state != Released {
      HeldIsCounted(l, i);
    }
    forall account: string
      ensures Used(l', account) == Count(l'.receipts, HeldBy(account))
      ensures Used(l', account) <= Used(l, account)
    {
      CountUpdate(l.receipts, i, row, HeldBy(account));
      assert Used(l, account) == Count(l.receipts, HeldBy(account));
    }
    forall account: string, cap: nat | Capped(l'.receipts, account, cap)
      ensures Used(l', account) <= cap
    {
      assert Capped(l.receipts, account, cap) by {
        forall k | 0 <= k < |l.receipts| && l.receipts[k].reservation.account == account
          ensures l.receipts[k].reservation == l'.receipts[k].reservation
        {
        }
      }
    }
  }

  lemma UpdateCountsAttempts(rows: seq<Receipt>, i: nat, row: Receipt)
    requires i < |rows| && ReceiptStep(rows[i], row)
    requires Chains(rows) && AttemptsCounted(rows)
    ensures AttemptsCounted(rows[i := row])
  {
    var rows' := rows[i := row];
    forall j | IsNewest(rows', j) && rows'[j].attemptLimit.Some?
      ensures Tally(rows', j)
    {
      var chain := rows[j].reservation;
      forall k | j < k < |rows|
        ensures !Chained(rows[k], rows[j])
      {
        assert !Chained(rows'[k], rows'[j]);
      }
      assert IsNewest(rows, j) && Tally(rows, j);
      CountUpdate(rows, i, row, ChargedIn(chain.account, chain.invocation));
      if i != j && Chained(rows[i], rows[j]) && rows[i].state == Unknown {
        UnknownIsNewest(rows, i);
      }
    }
  }

  lemma UpdateKeeps(l: Ledger, i: nat, row: Receipt)
    requires LedgerInv(l) && i < |l.receipts| && ReceiptStep(l.receipts[i], row)
    ensures LedgerInv(AfterUpdate(l, i, row))
    ensures Advances(l.receipts, AfterUpdate(l, i, row).receipts)
  {
    var rows' := l.receipts[i := row];
    assert Advances(l.receipts, rows') by {
      forall k | 0 <= k < |l.receipts|
        ensures Evolves(l.receipts[k], rows'[k])
      {
      }
    }
    UpdateConserves(l, i, row);
    UpdateCountsAttempts(l.receipts, i, row);
    EvolvingKeepsChains(l.receipts, rows');
  }

  // ---- Append of one receipt ----------------------------------------------------

  /** Why a fresh reservation may join its chain: the facts the checks of `Reserve` leave. */
  ghost predicate Joins(rows: seq<Receipt>, row: Receipt) {
    var chain := row.reservation;
    var previous := FindLast(rows, InChain(chain.account, chain.invocation));
    && FindLast(rows, HasReference(chain.reference)).None?
    && FindLast(rows, UnknownIn(chain.account, chain.invocation)).None?
    && row.state == Unknown && !row.output && row.recovery.None? && !row.preDispatchReleased
    && RowOk(row)
    && (row.attemptLimit.Some? ==> row.attemptsUsed <= row.attemptLimit.value)
    && (previous.None? ==> row.attemptLimit.Some? ==> row.attemptsUsed == 1)
    && (previous.Some? ==>
          var p := rows[previous.value];
          && p.reservation.binding == chain.binding
          && (row.attemptLimit.Some? || row.handoffInput.Some? ==> p.state == Released && !p.output)
          && (p.attemptLimit.Some? ==> row.attemptLimit == p.attemptLimit)
          && (row.attemptLimit.Some? ==> row.attemptsUsed == p.attemptsUsed + 1))
  }

  /** Every earlier receipt of the chain precedes the new one. */
  lemma JoiningPrecedes(rows: seq<Receipt>, row: Receipt, i: nat)
    requires Chains(rows) && Joins(rows, row) && i < |rows| && Chained(rows[i], row)
    ensures Precedes(rows[i], row)
  {
    var chain := row.reservation;
    assert InChain(chain.account, chain.invocation)(rows[i]);
    assert !UnknownIn(chain.account, chain.invocation)(rows[i]);
    var last := FindLast(rows, InChain(chain.account, chain.invocation)).value;
    assert i <= last;
    if i < last {
      assert Chained(rows[i], rows[last]);
    }
  }

  /** A chain whose newest receipt is implicit has charged no attempt. */
  lemma ImplicitChainIsUncharged(rows: seq<Receipt>, account: string, invocation: string)
    requires Chains(rows)
    requires var newest := FindLast(rows, InChain(account, invocation));
             newest.Some? ==> rows[newest.value].attemptLimit.None?
    ensures Count(rows, ChargedIn(account, invocation)) == 0
  {
    var newest := FindLast(rows, InChain(account, invocation));
    forall i | 0 <= i < |rows|
      ensures !ChargedIn(account, invocation)(rows[i])
    {
      if InChain(account, invocation)(rows[i]) && i < newest.value {
        assert Chained(rows[i], rows[newest.value]) && Precedes(rows[i], rows[newest.value]);
      }
    }
    CountZero(rows, ChargedIn(account, invocation));
  }

  /** The chain's attempt count, read from its newest receipt. */
  lemma ChargedSoFar(rows: seq<Receipt>, newest: nat)
    requires Chains(rows) && AttemptsCounted(rows) && newest < |rows| && RowOk(rows[newest])
    requires var chain := rows[newest].reservation;
             FindLast(rows, InChain(chain.account, chain.invocation)) == Some(newest)
    ensures var chain := rows[newest].reservation;
            Count(rows, ChargedIn(chain.account, chain.invocation)) == rows[newest].attemptsUsed
  {
    var chain := rows[newest].reservation;
    if rows[newest].attemptLimit.Some? {
      forall k | newest < k < |rows|
        ensures !Chained(rows[k], rows[newest])
      {
        assert !InChain(chain.account, chain.invocation)(rows[k]);
      }
      assert Tally(rows, newest);
    } else {
      ImplicitChainIsUncharged(rows, chain.account, chain.invocation);
    }
  }

  lemma AppendKeepsChains(rows: seq<Receipt>, row: Receipt)
    requires UniqueReferences(rows) && Chains(rows) && Fenced(rows) && Joins(rows, row)
    ensures UniqueReferences(rows + [row]) && Chains(rows + [row]) && Fenced(rows + [row])
  {
    var rows' := rows + [row];
    var chain := row.reservation;
    forall i | 0 <= i < |rows|
      ensures rows[i].reservation.reference != chain.reference
      ensures Chained(rows[i], row) ==> Precedes(rows[i], row)
    {
      assert !HasReference(chain.reference)(rows[i]);
      if Chained(rows[i], row) {
        JoiningPrecedes(rows, row, i);
      }
    }
    forall i, j | Adjacent(rows', i, j)
                  && (rows'[j].attemptLimit.Some? || rows'[j].handoffInput.Some?)
      ensures rows'[i].state == Released && !rows'[i].output
    {
      forall k | i < k < j
        ensures !Chained(rows[k], rows'[j])
      {
        assert !Chained(rows'[k], rows'[j]);
      }
      if j < |rows| {
        assert Adjacent(rows, i, j);
      } else {
        assert InChain(chain.account, chain.invocation)(rows[i]);
        var last := FindLast(rows, InChain(chain.account, chain.invocation)).value;
        assert InChain(chain.account, chain.invocation)(rows[last]);
      }
    }
  }

  lemma JoiningTally(rows: seq<Receipt>, row: Receipt)
    requires Chains(rows) && AttemptsCounted(rows) && Joins(rows, row) && row.attemptLimit.Some?
    requires forall i | 0 <= i < |rows| :: RowOk(rows[i])
    ensures Tally(rows + [row], |rows|)
  {
    var chain := row.reservation;
    var p := InChain(chain.account, chain.invocation);
    var newest := FindLast(rows, p);
    CountAppend(rows, row, ChargedIn(chain.account, chain.invocation));
    if newest.Some? {
      assert p(rows[newest.value]);
      ChargedSoFar(rows, newest.value);
    } else {
      ImplicitChainIsUncharged(rows, chain.account, chain.invocation);
    }
  }

  lemma AppendCountsAttempts(rows: seq<Receipt>, row: Receipt)
    requires Chains(rows) && AttemptsCounted(rows) && Joins(rows, row)
    requires forall i | 0 <= i < |rows| :: RowOk(rows[i])
    ensures AttemptsCounted(rows + [row])
  {
    var rows' := rows + [row];
    forall j | IsNewest(rows', j) && rows'[j].attemptLimit.Some?
      ensures Tally(rows', j)
    {
      if j < |rows| {
        OlderTally(rows, row, j);
      } else {
        JoiningTally(rows, row);
      }
    }
  }

  lemma OlderTally(rows: seq<Receipt>, row: Receipt, j: nat)
    requires AttemptsCounted(rows) && j < |rows| && rows[j].attemptLimit.Some?
    requires IsNewest(rows + [row], j)
    ensures Tally(rows + [row], j)
  {
    var rows' := rows + [row];
    var chain := rows[j].reservation;
    assert !Chained(rows'[|rows|], rows'[j]);
    forall k | j < k < |rows|
      ensures !Chained(rows[k], rows[j])
    {
      assert !Chained(rows'[k], rows'[j]);
    }
    CountAppend(rows, row, ChargedIn(chain.account, chain.invocation));
    assert Tally(rows, j);
  }

  function AfterAppend(l: Ledger, row: Receipt): Ledger {
    var account := row.reservation.account;
    Ledger(l.used[account := Used(l, account) + 1], l.receipts + [row])
  }

  lemma AppendConserves(l: Ledger, row: Receipt)
    requires Conserved(l) && row.state == Unknown
    ensures Conserved(AfterAppend(l, row))
  {
    var l' := AfterAppend(l, row);
    forall account: string
      ensures Used(l', account) == Count(l'.receipts, HeldBy(account))
    {
      CountAppend(l.receipts, row, HeldBy(account));
      assert Used(l, account) == Count(l.receipts, HeldBy(account));
    }
  }

  lemma AppendStaysWithinLimits(l: Ledger, row: Receipt)
    requires WithinLimits(l)
    requires row.reservation.requestLimit.Some? ==>
               Used(l, row.reservation.account) < row.reservation.requestLimit.value
    ensures WithinLimits(AfterAppend(l, row))
  {
    var l' := AfterAppend(l, row);
    forall account: string, cap: nat | Capped(l'.receipts, account, cap)
      ensures Used(l', account) <= cap
    {
      assert l'.receipts[|l.receipts|] == row;
      assert Capped(l.receipts, account, cap) by {
        forall i | 0 <= i < |l.receipts| ensures l'.receipts[i] == l.receipts[i] { }
      }
    }
  }

  lemma AppendKeeps(l: Ledger, row: Receipt)
    requires LedgerInv(l) && Joins(l.receipts, row)
    requires row.reservation.requestLimit.Some? ==>
               Used(l, row.reservation.account) < row.reservation.requestLimit.value
    ensures LedgerInv(AfterAppend(l, row))
    ensures Advances(l.receipts, AfterAppend(l, row).receipts)
  {
    AppendConserves(l, row);
    AppendStaysWithinLimits(l, row);
    AppendKeepsChains(l.receipts, row);
    AppendCountsAttempts(l.receipts, row);
    forall i | 0 <= i < |l.receipts|
      ensures (l.receipts + [row])[i] == l.receipts[i] && RowOk(l.receipts[i])
    {
    }
  }
}
