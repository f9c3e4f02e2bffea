/** Each ledger transaction keeps the ledger invariant and only appends or evolves receipts. */
module LedgerSteps {
  import opened Tables
  import opened Records
  import opened SpendLedger
  import opened LedgerInvariants

  ghost predicate Keeps(l: Ledger, l': Ledger) {
    LedgerInv(l') && Advances(l.receipts, l'.receipts)
  }

  // ---- Reserve ------------------------------------------------------------------

  predicate Accepted(result: Result<(bool, Ledger), LedgerError>) {
    result.Ok? && result.value.0
  }

  /** `l'` is `l` plus one Unknown receipt for `r`, whose reference `l` did not hold. */
  predicate Appended(l: Ledger, l': Ledger, r: Reservation) {
    && StateOf(l, r.reference).None?
    && |l'.receipts| == |l.receipts| + 1
    && l'.receipts[..|l.receipts|] == l.receipts
    && l'.receipts[|l.receipts|].reservation == r
    && l'.receipts[|l.receipts|].state == Unknown
  }

  lemma AcceptedShape(l: Ledger, r: Reservation, attemptLimit: Option<u32>, handoff: Option<string>)
    requires Accepted(Reserve(l, r, attemptLimit, handoff))
    ensures var l' := Reserve(l, r, attemptLimit, handoff).value.1;
            && Appended(l, l', r)
            && l' == AfterAppend(l, l'.receipts[|l.receipts|])
            && (r.requestLimit.Some? ==> Used(l, r.account) < r.requestLimit.value)
  {
    var l' := Reserve(l, r, attemptLimit, handoff).value.1;
    assert l'.receipts[..|l.receipts|] == l.receipts;
  }

  lemma AcceptedJoins(l: Ledger, r: Reservation, attemptLimit: Option<u32>, handoff: Option<string>)
    requires forall i | 0 <= i < |l.receipts| :: RowOk(l.receipts[i])
    requires Accepted(Reserve(l, r, attemptLimit, handoff))
    ensures var l' := Reserve(l, r, attemptLimit, handoff).value.1;
            |l'.receipts| == |l.receipts| + 1 && Joins(l.receipts, l'.receipts[|l.receipts|])
  {
    var previous := FindLast(l.receipts, InChain(r.account, r.invocation));
    if previous.Some? {
      var p := l.receipts[previous.value];
      assert InChain(r.account, r.invocation)(p) && RowOk(p);
      assert !UnknownIn(r.account, r.invocation)(p);
    }
  }

  /** A refused reservation changes nothing, a repeated one neither; an accepted one appends
      exactly one Unknown receipt with a reference the ledger did not hold. */
  lemma ReserveKeeps(l: Ledger, r: Reservation, attemptLimit: Option<u32>, handoff: Option<string>)
    requires LedgerInv(l)
    ensures var result := Reserve(l, r, attemptLimit, handoff);
            result.Ok? ==>
              && Keeps(l, result.value.1)
              && (result.value.0 ==> Appended(l, result.value.1, r))
              && (!result.value.0 ==> result.value.1 == l && StateOf(l, r.reference).Some?)
  {
    var result := Reserve(l, r, attemptLimit, handoff);
    if Accepted(result) {
      hide Reserve, FindLast, Joins;
      AcceptedShape(l, r, attemptLimit, handoff);
      AcceptedJoins(l, r, attemptLimit, handoff);
      AppendKeeps(l, result.value.1.receipts[|l.receipts|]);
    }
  }

  lemma AcquireKeeps(l: Ledger, h: Handoff, account: string, input: string, owner: string)
    requires LedgerInv(l)
    ensures var result := AcquireHandoff(l, h, account, input, owner);
            result.Ok? ==> Keeps(l, result.value)
  {
    var result := AcquireHandoff(l, h, account, input, owner);
    if result.Ok? {
      var i := ReceiptIndex(l, h.reservation.reference).value;
      UpdateKeeps(l, i, result.value.receipts[i]);
    }
  }

  // ---- Finish and release -------------------------------------------------------

  /** A settlement changes at most the receipt it names, and its counter guard never fails. */
  lemma FinishKeeps(l: Ledger, reference: string, state: SpendState, usage: Option<Usage>, output: bool)
    requires LedgerInv(l)
    ensures var result := Finish(l, reference, state, usage, output);
            && result != Err(Storage)
            && (result.Ok? ==>
                  && Keeps(l, result.value)
                  && StateOf(l, reference).Some?
                  && (result.value != l ==> StateOf(l, reference) == Some(Unknown)))
  {
    var found := ReceiptIndex(l, reference);
    var result := Finish(l, reference, state, usage, output);
    if found.Some? {
      if l.receipts[found.value].state != Released {
        HeldIsCounted(l, found.value);
      }
      if result.Ok? && l.receipts[found.value].state == Unknown {
        UpdateKeeps(l, found.value, result.value.receipts[found.value]);
        assert result.value == AfterUpdate(l, found.value, result.value.receipts[found.value]);
      }
    }
  }

  lemma ReleaseKeeps(l: Ledger, reference: string)
    requires LedgerInv(l)
    ensures var result := Release(l, reference);
            && result != Err(Storage)
            && (result.Ok? ==> Keeps(l, result.value))
  {
    FinishKeeps(l, reference, Released, None, false);
    var result := Release(l, reference);
    if result.Ok? {
      var i := ReceiptIndex(l, reference).value;
      UpdateKeeps(l, i, result.value.receipts[i]);
      assert result.value == AfterUpdate(l, i, result.value.receipts[i]);
    }
  }

  /** Repeating a pre-dispatch release changes nothing. */
  lemma ReleaseIsIdempotent(l: Ledger, reference: string)
    requires LedgerInv(l) && Release(l, reference).Ok?
    ensures Release(Release(l, reference).value, reference) == Ok(Release(l, reference).value)
  {
    ReleaseKeeps(l, reference);
    var l' := Release(l, reference).value;
    var i := ReceiptIndex(l, reference).value;
    assert Evolves(l.receipts[i], l'.receipts[i]);
    IndexByReference(l', i);
    var row := l'.receipts[i];
    assert row.preDispatchReleased && row.state == Released && RowOk(row);
    ReleasedWithoutUsage(l, reference);
    assert l'.receipts[i := row] == l'.receipts;
  }

  lemma ReleasedWithoutUsage(l: Ledger, reference: string)
    requires LedgerInv(l) && Release(l, reference).Ok?
    ensures var i := ReceiptIndex(l, reference).value;
            i < |Release(l, reference).value.receipts|
            && Release(l, reference).value.receipts[i].usage.None?
  {
  }

  // ---- Saved answers ------------------------------------------------------------

  lemma FinishWithAnswerKeeps(l: Ledger, reference: string, state: SpendState, usage: Option<Usage>,
                              output: Option<string>, evidence: bool, retention: nat,
                              deadline: Option<int>, policy: JobPolicy, at: Clock)
    requires LedgerInv(l)
    ensures var result := FinishWithAnswer(l, reference, state, usage, output, evidence, retention,
                                           deadline, policy, at);
            result.Ok? ==>
              && Keeps(l, result.value)
              && StateOf(l, reference).Some?
  {
    var saved := SaveAnswer(l, reference, output, retention, deadline, policy, at);
    var result := FinishWithAnswer(l, reference, state, usage, output, evidence, retention,
                                   deadline, policy, at);
    if result.Ok? {
      if saved.value == l {
        FinishKeeps(l, reference, state, usage, evidence || output.Some?);
      } else {
        var i := ReceiptIndex(l, reference).value;
        SavedThenFinished(l, saved.value, i, reference, state, usage, evidence || output.Some?);
      }
    }
  }

  /** Writing the answer and settling amount to one step of the same receipt. */
  lemma SavedThenFinished(l: Ledger, saved: Ledger, i: nat, reference: string, state: SpendState,
                          usage: Option<Usage>, output: bool)
    requires LedgerInv(l) && ReceiptIndex(l, reference) == Some(i) && output
    requires saved.used == l.used && |saved.receipts| == |l.receipts|
    requires !l.receipts[i].output && l.receipts[i].attemptLimit.Some?
    requires saved.receipts[i].recovery.Some?
    requires saved.receipts == l.receipts[i := l.receipts[i].(recovery := saved.receipts[i].recovery)]
    ensures var result := Finish(saved, reference, state, usage, output);
            result.Ok? ==> Keeps(l, result.value)
  {
    assert l.receipts[i].reservation.reference == reference;
    forall k | 0 <= k < |l.receipts|
      ensures saved.receipts[k].reservation == l.receipts[k].reservation
    {
    }
    IndexByReference(saved, i);
    var result := Finish(saved, reference, state, usage, output);
    if result.Ok? {
      var row := result.value.receipts[i];
      UpdateKeeps(l, i, row);
      assert result.value.receipts == l.receipts[i := row];
      assert result.value == AfterUpdate(l, i, row);
    }
  }

  lemma ConstrainKeeps(l: Ledger, reference: string, policy: JobPolicy, now: int)
    requires LedgerInv(l)
    ensures var result := ConstrainAnswer(l, reference, policy, now);
            result.Ok? ==> Keeps(l, result.value)
  {
    var result := ConstrainAnswer(l, reference, policy, now);
    if result.Ok? && result.value != l {
      var i := ReceiptIndex(l, reference).value;
      UpdateKeeps(l, i, result.value.receipts[i]);
    }
  }

  lemma DiscardKeeps(l: Ledger, account: string, invocation: string)
    requires LedgerInv(l)
    ensures Keeps(l, DiscardAnswer(l, account, invocation))
  {
    var found := FindLast(l.receipts, InChain(account, invocation));
    if found.Some? {
      UpdateKeeps(l, found.value, l.receipts[found.value].(recovery := None));
    }
  }

  /** Receipts lose saved answers and nothing else. */
  ghost predicate OnlyErases(rows: seq<Receipt>, rows': seq<Receipt>) {
    && |rows'| == |rows|
    && forall i | 0 <= i < |rows| :: rows'[i] == rows[i] || rows'[i] == rows[i].(recovery := None)
  }

  lemma ErasingKeeps(l: Ledger, l': Ledger)
    requires LedgerInv(l) && l'.used == l.used && OnlyErases(l.receipts, l'.receipts)
    ensures Keeps(l, l')
  {
    var rows, rows' := l.receipts, l'.receipts;
    assert Advances(rows, rows');
    EvolvingKeepsChains(rows, rows');
    forall account: string
      ensures Count(rows', HeldBy(account)) == Count(rows, HeldBy(account))
      ensures Used(l', account) == Count(rows', HeldBy(account))
    {
      CountSame(rows, rows', HeldBy(account));
      assert Used(l, account) == Count(rows, HeldBy(account));
    }
    forall account: string, cap: nat | Capped(rows', account, cap)
      ensures Used(l', account) <= cap
    {
      assert Capped(rows, account, cap) by {
        forall i | 0 <= i < |rows| ensures rows'[i].reservation == rows[i].reservation { }
      }
    }
    ErasingKeepsTallies(rows, rows');
  }

  lemma ErasingKeepsTallies(rows: seq<Receipt>, rows': seq<Receipt>)
    requires AttemptsCounted(rows) && OnlyErases(rows, rows')
    ensures AttemptsCounted(rows')
  {
    forall j | IsNewest(rows', j) && rows'[j].attemptLimit.Some?
      ensures Tally(rows', j)
    {
      var chain := rows[j].reservation;
      forall k | j < k < |rows|
        ensures !Chained(rows[k], rows[j])
      {
        assert !Chained(rows'[k], rows'[j]);
      }
      assert IsNewest(rows, j) && Tally(rows, j);
      CountSame(rows, rows', ChargedIn(chain.account, chain.invocation));
    }
  }

  lemma EraseKeeps(l: Ledger, gone: Receipt -> bool)
    requires LedgerInv(l)
    ensures Keeps(l, Erase(l, gone))
  {
    ErasingKeeps(l, Erase(l, gone));
  }

  lemma ExpireBatchKeeps(l: Ledger, cutoff: int)
    requires LedgerInv(l)
    ensures Keeps(l, ExpireBatch(l, cutoff))
  {
    hide ExpiryBatch;
    ErasingKeeps(l, ExpireBatch(l, cutoff));
  }

  // ---- How long an answer can be read -------------------------------------------

  predicate Before(time: int, deadline: Option<int>) {
    deadline.None? || time < deadline.value
  }

  /** A first answer of an explicit receipt is readable from now on exactly until the earliest
      of the retention, the caller's deadline and the job's deadline, and never once erased. */
  lemma AnswerReadableUntil(l: Ledger, reference: string, state: SpendState, usage: Option<Usage>, answer: string,
                            evidence: bool, retention: nat, deadline: Option<int>, policy: JobPolicy, at: Clock,
                            time: int)
    requires LedgerInv(l) && answer != EVIDENCE && at.first <= time
    requires var i := ReceiptIndex(l, reference);
             i.Some? && l.receipts[i.value].attemptLimit.Some? && !l.receipts[i.value].output
    requires FinishWithAnswer(l, reference, state, usage, Some(answer), evidence, retention, deadline, policy, at).Ok?
    ensures var l' := FinishWithAnswer(l, reference, state, usage, Some(answer), evidence, retention, deadline,
                                       policy, at).value;
            var i := ReceiptIndex(l, reference).value;
            && i < |l'.receipts| && l'.receipts[i].reservation == l.receipts[i].reservation
            && Readable(l'.receipts[i], time)
               == if !policy.erased && time < at.first + retention
                     && Before(time, deadline) && Before(time, policy.deadline)
                  then Some(answer) else None
  {
    hide FindLast, Finish, LedgerInv;
    var i := ReceiptIndex(l, reference).value;
    var saved := SaveAnswer(l, reference, Some(answer), retention, deadline, policy, at).value;
    NoAnswerYet(l, i);
    if saved != l {
      FindLastUpdated(l.receipts, i, saved.receipts[i], HasReference(reference));
    }
    FinishKeepsAnswer(saved, reference, state, usage, true);
  }

  lemma NoAnswerYet(l: Ledger, i: nat)
    requires LedgerInv(l) && i < |l.receipts| && !l.receipts[i].output
    ensures l.receipts[i].recovery.None?
  {
    assert RowOk(l.receipts[i]);
  }

  lemma FinishKeepsAnswer(l: Ledger, reference: string, state: SpendState, usage: Option<Usage>, output: bool)
    requires Finish(l, reference, state, usage, output).Ok?
    ensures var i := ReceiptIndex(l, reference);
            var l' := Finish(l, reference, state, usage, output).value;
            && i.Some? && i.value < |l'.receipts| == |l.receipts|
            && l'.receipts[i.value].recovery == l.receipts[i.value].recovery
            && l'.receipts[i.value].reservation == l.receipts[i.value].reservation
  {
    hide FindLast;
  }

  /** Narrowing keeps an answer readable exactly while its job allows it. */
  lemma ConstrainedReadableUntil(l: Ledger, reference: string, policy: JobPolicy, now: int, time: int)
    requires now <= time && ConstrainAnswer(l, reference, policy, now).Ok?
    ensures var l' := ConstrainAnswer(l, reference, policy, now).value;
            var i := ReceiptIndex(l, reference).value;
            Readable(l'.receipts[i], time)
            == if policy.erased || !Before(time, policy.deadline) then None else Readable(l.receipts[i], time)
  {
    hide FindLast;
  }
}
