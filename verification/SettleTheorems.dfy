/** Exactly when a settlement, a release or a handoff is accepted, and what it leaves in the
    ledger: the named row as told, and every other row as it was. */
module SettleTheorems {
  import opened Tables
  import opened Records
  import opened SpendLedger
  import opened LedgerInvariants
  import opened LedgerSteps
  import RegistryInvariants
  import Expiry
  import opened Runs

  /** Receipt `i` holds the reference. */
  predicate Names(rows: seq<Receipt>, reference: string, i: int) {
    0 <= i < |rows| && rows[i].reservation.reference == reference
  }

  /** Only row `i` may differ. */
  ghost predicate OnlyRow(rows: seq<Receipt>, rows': seq<Receipt>, i: int) {
    |rows'| == |rows| && forall k | 0 <= k < |rows| && k != i :: rows'[k] == rows[k]
  }

  lemma NamedIsFound(l: Ledger, reference: string, i: nat)
    requires LedgerInv(l) && Names(l.receipts, reference, i)
    ensures ReceiptIndex(l, reference) == Some(i)
  {
    IndexByReference(l, i);
  }

  lemma NamedByNone(l: Ledger, reference: string)
    requires ReceiptIndex(l, reference).None?
    ensures forall i :: !Names(l.receipts, reference, i)
  {
    assert forall i | 0 <= i < |l.receipts| :: !HasReference(reference)(l.receipts[i]);
  }

  // ---- Settlement ---------------------------------------------------------------

  /** A settlement the receipt allows: a Settled one is measured, a Released one has no output, and
      a resolved receipt accepts only what it already holds. */
  predicate Allows(row: Receipt, state: SpendState, usage: Option<Usage>, output: bool) {
    && (state == Settled ==> usage.Some? && (usage.value.metered || usage.value.cost != NoCost))
    && (state == Released ==> !row.output && !output)
    && (row.state != Unknown ==> row.state == state && row.usage == usage && (output ==> row.output))
  }

  /** The row after it: exactly the given state and usage and the joined evidence. */
  function Told(row: Receipt, state: SpendState, usage: Option<Usage>, output: bool): Receipt {
    row.(state := state, usage := usage, output := row.output || output)
  }

  /** A settlement is accepted if and only if a receipt is named and allows it; it then holds what
      it was told, no other row changes, and a release returns one request of its account. */
  lemma SettledExactlyWhen(l: Ledger, reference: string, state: SpendState, usage: Option<Usage>, output: bool,
                           i: nat)
    requires LedgerInv(l) && Names(l.receipts, reference, i)
    ensures var result := Finish(l, reference, state, usage, output);
            && (result.Ok? <==> Allows(l.receipts[i], state, usage, output))
            && (result.Err? ==> result.error == Conflict)
            && (result.Ok? ==>
                  && OnlyRow(l.receipts, result.value.receipts, i)
                  && result.value.receipts[i] == Told(l.receipts[i], state, usage, output)
                  && forall account :: Used(result.value, account)
                       == Used(l, account) - if account == l.receipts[i].reservation.account
                                                && l.receipts[i].state == Unknown && state == Released then 1 else 0)
  {
    NamedIsFound(l, reference, i);
    if l.receipts[i].state == Unknown {
      HeldIsCounted(l, i);
    }
    hide FindLast, LedgerInv;
  }

  lemma UnnamedIsRefused(l: Ledger, reference: string, state: SpendState, usage: Option<Usage>, output: bool)
    requires forall i :: !Names(l.receipts, reference, i)
    ensures Finish(l, reference, state, usage, output) == Err(Conflict)
    ensures Release(l, reference) == Err(Conflict)
  {
    assert forall i | 0 <= i < |l.receipts| ::
             HasReference(reference)(l.receipts[i]) ==> Names(l.receipts, reference, i);
  }

  /** The identical settlement repeated is accepted and changes nothing. */
  lemma RepeatedSettlementChangesNothing(l: Ledger, reference: string, state: SpendState, usage: Option<Usage>,
                                         output: bool, i: nat)
    requires LedgerInv(l) && Names(l.receipts, reference, i) && Finish(l, reference, state, usage, output).Ok?
    ensures var l' := Finish(l, reference, state, usage, output).value;
            Finish(l', reference, state, usage, output) == Ok(l')
  {
    SettledExactlyWhen(l, reference, state, usage, output, i);
    FinishKeeps(l, reference, state, usage, output);
    var l' := Finish(l, reference, state, usage, output).value;
    assert Names(l'.receipts, reference, i);
    NamedIsFound(l', reference, i);
    hide FindLast, LedgerInv, Advances;
    assert l'.receipts[i := l'.receipts[i]] == l'.receipts;
  }

  // ---- With an answer -----------------------------------------------------------

  /** The saved answer does not contradict one already kept: an explicit receipt with evidence
      accepts only the answer still readable. */
  predicate AnswerAgrees(row: Receipt, output: Option<string>, readAt: int) {
    output.Some? && output != Some(EVIDENCE) && row.attemptLimit.Some? && row.output ==>
      row.recovery.Some? && readAt < row.recovery.value.expiresAt && row.recovery.value.answer == output.value
  }

  lemma SavedRow(l: Ledger, reference: string, output: Option<string>, retention: nat, deadline: Option<int>,
                 policy: JobPolicy, at: Clock, i: nat)
    requires LedgerInv(l) && Names(l.receipts, reference, i)
    ensures var result := SaveAnswer(l, reference, output, retention, deadline, policy, at);
            && (result.Ok? <==> AnswerAgrees(l.receipts[i], output, at.second))
            && (result.Err? ==> result.error == Conflict)
            && (result.Ok? ==>
                  && result.value.used == l.used && OnlyRow(l.receipts, result.value.receipts, i)
                  && result.value.receipts[i] == l.receipts[i].(recovery := result.value.receipts[i].recovery))
  {
    NamedIsFound(l, reference, i);
    hide FindLast, LedgerInv;
  }

  /** The same for a settlement that also saves an answer, as reconciliation and jobs do. */
  lemma SettledWithAnswerExactlyWhen(l: Ledger, reference: string, state: SpendState, usage: Option<Usage>,
                                     output: Option<string>, evidence: bool, retention: nat, deadline: Option<int>,
                                     policy: JobPolicy, at: Clock, i: nat)
    requires LedgerInv(l) && Names(l.receipts, reference, i)
    ensures var result := FinishWithAnswer(l, reference, state, usage, output, evidence, retention, deadline,
                                           policy, at);
            && (result.Ok? <==> AnswerAgrees(l.receipts[i], output, at.second)
                                && Allows(l.receipts[i], state, usage, evidence || output.Some?))
            && (result.Ok? ==>
                  && OnlyRow(l.receipts, result.value.receipts, i)
                  && result.value.receipts[i]
                     == Told(l.receipts[i], state, usage, evidence || output.Some?)
                        .(recovery := result.value.receipts[i].recovery))
  {
    SavedRow(l, reference, output, retention, deadline, policy, at, i);
    var saved := SaveAnswer(l, reference, output, retention, deadline, policy, at);
    if saved.Ok? {
      SettlesSaved(l, saved.value, reference, state, usage, evidence || output.Some?, i);
    }
    hide LedgerInv, SaveAnswer, Finish, FindLast;
  }

  /** Settling reads neither saved answers nor anything but the named row. */
  lemma SettlesSaved(l: Ledger, saved: Ledger, reference: string, state: SpendState, usage: Option<Usage>,
                     output: bool, i: nat)
    requires LedgerInv(l) && Names(l.receipts, reference, i)
    requires saved.used == l.used && OnlyRow(l.receipts, saved.receipts, i)
    requires saved.receipts[i] == l.receipts[i].(recovery := saved.receipts[i].recovery)
    ensures var result := Finish(saved, reference, state, usage, output);
            && (result.Ok? <==> Allows(l.receipts[i], state, usage, output))
            && (result.Ok? ==>
                  && OnlyRow(saved.receipts, result.value.receipts, i)
                  && result.value.receipts[i] == Told(saved.receipts[i], state, usage, output))
  {
    NamedIsFound(l, reference, i);
    if l.receipts[i].state == Unknown {
      HeldIsCounted(l, i);
    }
    assert HasReference(reference)(saved.receipts[i]);
    var found := FindLast(saved.receipts, HasReference(reference));
    assert found == Some(i) by {
      assert forall k | i < k < |l.receipts| :: !HasReference(reference)(l.receipts[k]);
      assert saved.receipts == l.receipts[i := saved.receipts[i]];
      FindLastUpdated(l.receipts, i, saved.receipts[i], HasReference(reference));
    }
    hide FindLast, LedgerInv;
  }

  // ---- Over runs ----------------------------------------------------------------

  /** After an accepted reconciliation the named receipt holds exactly the given state and usage and
      the joined evidence, and once resolved it holds them after every later run: then a settlement
      is accepted if and only if it is the same one, and changes no state, usage or evidence. */
  lemma ReconciledForGood(events: seq<Event>, at: Clock, reference: string, state: SpendState, usage: Option<Usage>,
                          output: Option<string>, retention: nat, policy: JobPolicy, later: seq<Event>, i: nat,
                          state': SpendState, usage': Option<Usage>, output': bool)
    requires var l := Run(EMPTY_STORE, events).ledger;
             && Names(l.receipts, reference, i)
             && FinishWithAnswer(l, reference, state, usage, output, false, retention, None, policy, at).Ok?
    ensures var s := Run(EMPTY_STORE, events);
            var s1 := Step(s, Event(at, OpReconcile(reference, state, usage, output, retention, policy)));
            var l2 := Run(s1, later).ledger;
            var evidence := s.ledger.receipts[i].output || output.Some?;
            && i < |s1.ledger.receipts|
            && s1.ledger.receipts[i].state == state && s1.ledger.receipts[i].usage == usage
            && s1.ledger.receipts[i].output == evidence
            && (state != Unknown ==>
                  && i < |l2.receipts|
                  && l2.receipts[i].state == state && l2.receipts[i].usage == usage && l2.receipts[i].output == evidence
                  && (Finish(l2, reference, state', usage', output').Ok?
                      <==> state' == state && usage' == usage && (output' ==> evidence))
                  && (Finish(l2, reference, state', usage', output').Ok? ==>
                        Finish(l2, reference, state', usage', output') == Ok(l2)))
  {
    var s := Run(EMPTY_STORE, events);
    var e := Event(at, OpReconcile(reference, state, usage, output, retention, policy));
    var s1 := Step(s, e);
    Reachable(events);
    SettledWithAnswerExactlyWhen(s.ledger, reference, state, usage, output, false, retention, None, policy, at, i);
    ReconcileStep(s, e);
    StepKeeps(s, e);
    RunKeeps(s1, later);
    hide Run, Step, LedgerInv, FinishWithAnswer, Finish, OnlyRow;
    var row := s1.ledger.receipts[i];
    assert i < |s1.ledger.receipts| && row.state == state by {
      LengthKept(s.ledger, reference, state, usage, output, retention, policy, at, i);
    }
    if state != Unknown {
      var s2 := Run(s1, later);
      ResolvedStays(s1, s2, i);
      SettledExactlyWhen(s2.ledger, reference, state', usage', output', i);
      RowAllowsItself(s2.ledger.receipts[i], state', usage', output');
      if Finish(s2.ledger, reference, state', usage', output').Ok? {
        SameSettlement(s2.ledger, reference, state', usage', output', i);
      }
    }
  }

  lemma ReconcileStep(s: Store, e: Event)
    requires e.op.OpReconcile?
    requires var op := e.op;
             FinishWithAnswer(s.ledger, op.reference, op.state, op.usage, op.output, false, op.retention, None,
                              op.policy, e.at).Ok?
    ensures var op := e.op;
            Step(s, e).ledger == FinishWithAnswer(s.ledger, op.reference, op.state, op.usage, op.output, false,
                                                  op.retention, None, op.policy, e.at).value
  {
    hide FinishWithAnswer;
  }

  lemma LengthKept(l: Ledger, reference: string, state: SpendState, usage: Option<Usage>, output: Option<string>,
                   retention: nat, policy: JobPolicy, at: Clock, i: nat)
    requires LedgerInv(l) && Names(l.receipts, reference, i)
    requires FinishWithAnswer(l, reference, state, usage, output, false, retention, None, policy, at).Ok?
    ensures var l' := FinishWithAnswer(l, reference, state, usage, output, false, retention, None, policy, at).value;
            i < |l'.receipts| && l'.receipts[i].reservation == l.receipts[i].reservation
  {
    SettledWithAnswerExactlyWhen(l, reference, state, usage, output, false, retention, None, policy, at, i);
  }

  lemma ResolvedStays(s: Store, s': Store, i: nat)
    requires RegistryInvariants.StoreAdvances(s, s') && i < |s.ledger.receipts| && s.ledger.receipts[i].state != Unknown
    ensures i < |s'.ledger.receipts|
    ensures s'.ledger.receipts[i].reservation == s.ledger.receipts[i].reservation
    ensures s'.ledger.receipts[i].state == s.ledger.receipts[i].state
    ensures s'.ledger.receipts[i].usage == s.ledger.receipts[i].usage
    ensures s'.ledger.receipts[i].output == s.ledger.receipts[i].output
  {
    assert Evolves(s.ledger.receipts[i], s'.ledger.receipts[i]);
  }

  /** What a resolved row allows is what it holds. */
  lemma RowAllowsItself(row: Receipt, state: SpendState, usage: Option<Usage>, output: bool)
    requires row.state != Unknown && RowOk(row)
    requires row.state == Settled ==> row.usage.Some? && Measured(row.usage.value)
    ensures Allows(row, state, usage, output)
       <==> state == row.state && usage == row.usage && (output ==> row.output)
  {
  }

  lemma SameSettlement(l: Ledger, reference: string, state: SpendState, usage: Option<Usage>, output: bool, i: nat)
    requires LedgerInv(l) && Names(l.receipts, reference, i) && l.receipts[i].state != Unknown
    requires Finish(l, reference, state, usage, output).Ok?
    ensures Finish(l, reference, state, usage, output) == Ok(l)
  {
    NamedIsFound(l, reference, i);
  }

  // ---- Release before dispatch --------------------------------------------------

  /** A release before dispatch is accepted if and only if the receipt is Unknown without output, or
      was released this way before; it returns the request and, once, the attempt. */
  lemma ReleasedExactlyWhen(l: Ledger, reference: string, i: nat)
    requires LedgerInv(l) && Names(l.receipts, reference, i)
    ensures var result := Release(l, reference);
            var row := l.receipts[i];
            && (result.Ok? <==> row.preDispatchReleased || (row.state == Unknown && !row.output))
            && (result.Err? ==> result.error == Conflict)
            && (result.Ok? ==>
                  && OnlyRow(l.receipts, result.value.receipts, i)
                  && result.value.receipts[i]
                     == row.(state := Released, usage := None, preDispatchReleased := true,
                             attemptsUsed := if row.attemptLimit.Some? && !row.preDispatchReleased
                                             then row.attemptsUsed - 1 else row.attemptsUsed)
                  && Used(result.value, row.reservation.account)
                     == Used(l, row.reservation.account) - if row.state == Unknown then 1 else 0)
  {
    NamedIsFound(l, reference, i);
    assert RowOk(l.receipts[i]);
    SettledExactlyWhen(l, reference, Released, None, false, i);
    hide FindLast, LedgerInv, Finish;
  }

  // ---- Handoff ownership --------------------------------------------------------

  /** Ownership is taken if and only if the receipt is exactly the handed-off reservation, still
      Unknown, not owned, of this account and with this very input; only its owner changes. */
  lemma AcquiredExactlyWhen(l: Ledger, h: Handoff, account: string, input: string, owner: string, i: nat)
    requires LedgerInv(l) && Names(l.receipts, h.reservation.reference, i)
    ensures var result := AcquireHandoff(l, h, account, input, owner);
            var row := l.receipts[i];
            && (result.Ok? <==>
                  && row.reservation == h.reservation && row.state == Unknown && row.dispatchOwner.None?
                  && row.reservation.account == account && h.inputIdentity == input && row.handoffInput == Some(input)
                  && owner != "")
            && (result.Err? ==> result.error == Conflict)
            && (result.Ok? ==>
                  && result.value.used == l.used && OnlyRow(l.receipts, result.value.receipts, i)
                  && result.value.receipts[i] == row.(dispatchOwner := Some(owner)))
  {
    NamedIsFound(l, h.reservation.reference, i);
    hide FindLast, LedgerInv;
  }

  /** Another account or another input is refused, whatever the ledger. */
  lemma ForeignHandoffRefused(l: Ledger, h: Handoff, account: string, input: string, owner: string)
    requires account != h.reservation.account || input != h.inputIdentity || owner == ""
    ensures AcquireHandoff(l, h, account, input, owner) == Err(Conflict)
  {
    hide FindLast;
  }

  // ---- Erasure ------------------------------------------------------------------

  /** After a discard no answer of the invocation's newest receipt is readable at any time, and no
      other row changes. */
  lemma DiscardedIsUnreadable(l: Ledger, account: string, invocation: string, i: nat, time: int)
    requires i < |l.receipts| && SameChain(l.receipts[i], account, invocation)
    requires forall k | i < k < |l.receipts| :: !SameChain(l.receipts[k], account, invocation)
    ensures var l' := DiscardAnswer(l, account, invocation);
            && l'.used == l.used && OnlyRow(l.receipts, l'.receipts, i)
            && Readable(l'.receipts[i], time).None?
            && l'.receipts[i].(recovery := l.receipts[i].recovery) == l.receipts[i]
  {
    var found := FindLast(l.receipts, InChain(account, invocation));
    assert InChain(account, invocation)(l.receipts[i]);
    if found.Some? {
      assert InChain(account, invocation)(l.receipts[found.value]);
    }
    assert found == Some(i);
  }

  /** A saved answer is swept as expired exactly when it can no longer be read, so a sweep is
      invisible to every reader at or after its cutoff. */
  lemma SweptIsUnreadable(l: Ledger, cutoff: int, i: nat, time: int)
    requires i < |l.receipts| && cutoff <= time
    ensures ExpiredBy(cutoff)(l.receipts[i]) <==> l.receipts[i].recovery.Some? && Readable(l.receipts[i], cutoff).None?
    ensures Readable(Erase(l, ExpiredBy(cutoff)).receipts[i], time) == Readable(l.receipts[i], time)
    ensures Readable(ExpireBatch(l, cutoff).receipts[i], time) == Readable(l.receipts[i], time)
  {
    var deadlines := AnswerDeadlines(l.receipts);
    hide Expiry.Batch;
    if i in ExpiryBatch(l.receipts, cutoff) {
      assert i in Expiry.DueRows(deadlines, cutoff);
    }
  }

  /** A purge takes exactly the answers it was given, and nothing but the answer. */
  lemma PurgedExactlyWhen(l: Ledger, answers: set<string>, i: nat)
    requires i < |l.receipts|
    ensures var l' := Erase(l, AnswerIn(answers));
            && l'.used == l.used && |l'.receipts| == |l.receipts|
            && l'.receipts[i]
               == if l.receipts[i].recovery.Some? && l.receipts[i].recovery.value.answer in answers
                  then l.receipts[i].(recovery := None) else l.receipts[i]
  {
  }
}
