/** Attempt status under a clock that never moves backwards. */
module StatusTheorems {
  import opened Tables
  import opened Records
  import opened SpendLedger
  import opened LedgerInvariants
  import opened LedgerSteps
  import opened Registry
  import opened RegistryInvariants
  import opened RegistrySteps
  import opened Runs
  import Expiry

  // ---- Purge --------------------------------------------------------------------

  lemma {:induction false} SameFind<T>(rows: seq<T>, rows': seq<T>, p: T -> bool)
    requires |rows| == |rows'|
    requires forall i | 0 <= i < |rows| :: p(rows[i]) == p(rows'[i])
    ensures FindLast(rows, p) == FindLast(rows', p)
  {
    if rows != [] {
      SameFind(rows[..|rows| - 1], rows'[..|rows| - 1], p);
    }
  }

  /** A result past its recovery deadline is never read. */
  lemma ExpiredResultIsUnread(s: Store, s': Store, p: Permit, q: Permit, now: nat)
    requires s'.ledger == s.ledger && s'.revisions == s.revisions
    requires Superseded(s'.permits, p.attempt) == Superseded(s.permits, p.attempt)
    requires q == p || (q == p.(result := None) && p.attempt.recoveryExpiresAt <= now)
    ensures StatusOf(s', q, now) == StatusOf(s, p, now)
  {
    hide FindLast, Superseded;
  }

  /** What a purge does to one row. */
  lemma PurgedRow(s: Store, now: nat, i: nat)
    requires i < |s.permits|
    ensures var p, q := s.permits[i], PurgeResults(s, now).permits[i];
            q == p || (q == p.(result := None) && p.attempt.recoveryExpiresAt <= now)
  {
    var deadlines := ResultDeadlines(s.permits);
    if i in Expiry.Batch(deadlines, now, EXPIRY_BATCH_SIZE) {
      assert i in Expiry.DueRows(deadlines, now) && Expiry.Due(deadlines, now, i);
    }
  }

  /** A purge is invisible: at any time not before it, every status is the same as without it. */
  lemma PurgeIsInvisible(s: Store, purgedAt: nat, invocation: InvocationKey, ordinal: nat, now: nat)
    requires purgedAt <= now
    ensures StatusAt(PurgeResults(s, purgedAt), invocation, ordinal, now)
         == StatusAt(s, invocation, ordinal, now)
  {
    hide FindLast, StatusOf, Expiry.Batch, Expiry.DueRows;
    var s' := PurgeResults(s, purgedAt);
    SameFind(s.permits, s'.permits, AtOrdinal(invocation, ordinal));
    var found := FindLast(s.permits, AtOrdinal(invocation, ordinal));
    if found.Some? {
      var a := s.permits[found.value].attempt;
      SameFind(s.permits, s'.permits, After(a.invocation, a.ordinal));
      PurgedRow(s, purgedAt, found.value);
      ExpiredResultIsUnread(s, s', s.permits[found.value], s'.permits[found.value], now);
    }
  }

  function DueResults(permits: seq<Permit>, now: nat): set<int> {
    set i | 0 <= i < |permits| && permits[i].result.Some? && permits[i].attempt.recoveryExpiresAt <= now
  }

  function ChangedRows(permits: seq<Permit>, permits': seq<Permit>): set<int> {
    set i | 0 <= i < |permits| && i < |permits'| && permits'[i] != permits[i]
  }

  /** A purge removes one batch of due results, the earliest deadlines first. */
  lemma PurgeIsBounded(s: Store, now: nat)
    ensures var removed := ChangedRows(s.permits, PurgeResults(s, now).permits);
            var due := DueResults(s.permits, now);
            && removed <= due
            && |removed| == (if |due| <= EXPIRY_BATCH_SIZE then |due| else EXPIRY_BATCH_SIZE)
            && (forall i, j | i in removed && j in due - removed ::
                  s.permits[i].attempt.recoveryExpiresAt <= s.permits[j].attempt.recoveryExpiresAt)
  {
    hide Expiry.Batch, Expiry.DueRows, PurgeResults;
    DueAreDue(s.permits, now);
    BatchIsRemoved(s, now);
  }

  lemma DueAreDue(permits: seq<Permit>, now: nat)
    ensures Expiry.DueRows(ResultDeadlines(permits), now) == DueResults(permits, now)
  {
    var deadlines := ResultDeadlines(permits);
    forall i | 0 <= i < |permits|
      ensures Expiry.Due(deadlines, now, i) == (i in DueResults(permits, now))
    {
    }
  }

  lemma BatchIsRemoved(s: Store, now: nat)
    ensures ChangedRows(s.permits, PurgeResults(s, now).permits)
         == Expiry.Batch(ResultDeadlines(s.permits), now, EXPIRY_BATCH_SIZE)
  {
    hide Expiry.Batch, Expiry.DueRows;
    DueAreDue(s.permits, now);
    var batch := Expiry.Batch(ResultDeadlines(s.permits), now, EXPIRY_BATCH_SIZE);
    forall i | 0 <= i < |s.permits|
      ensures i in batch <==> PurgeResults(s, now).permits[i] != s.permits[i]
    {
      assert i in batch ==> i in DueResults(s.permits, now);
    }
  }

  // ---- What one event does to permits -------------------------------------------

  predicate Acceptable(s: Store, p: Permit, now: nat) {
    !Superseded(s.permits, p.attempt) && CurrentRevision(s, p.attempt) && now < p.attempt.expiresAt
  }

  predicate ResultMissing(p: Permit) {
    p.finished == Recoverable && p.result.None?
  }

  /** One row: consumed only while acceptable, its result dropped only past the deadline. */
  predicate TimelyRow(s: Store, p: Permit, q: Permit, now: nat) {
    && (!p.consumed && q.consumed ==> Acceptable(s, p, now))
    && (ResultMissing(q) ==> ResultMissing(p) || p.attempt.recoveryExpiresAt <= now)
  }

  ghost predicate Timely(s: Store, s': Store, now: nat) {
    && |s.permits| <= |s'.permits|
    && (forall i | 0 <= i < |s.permits| :: TimelyRow(s, s.permits[i], s'.permits[i], now))
    && (forall i | |s.permits| <= i < |s'.permits| :: s'.permits[i].finished == InFlight)
  }

  /** What is acceptable when accepted was acceptable when the transaction began. */
  lemma TimelyAccept(s: Store, a: Attempt, token: string, reference: string, maxAttempts: nat, began: nat, now: nat)
    requires began <= now
    ensures var result := AcceptIn(s, a, token, reference, maxAttempts, now);
            result.Ok? ==> Timely(s, result.value, began)
  {
    var found := FindLast(s.permits, Pending(a, token));
    if found.Some? {
      assert Pending(a, token)(s.permits[found.value]);
    }
  }

  lemma TimelyAcceptJob(s: Store, a: Attempt, reference: string, maxAttempts: nat, at: Clock, token: string)
    requires InOrder(at)
    ensures var result := AcceptJobIn(s, a, reference, maxAttempts, at, token);
            result.Ok? ==> Timely(s, result.value, at.first)
  {
    hide AcceptIn, IssueIn;
    var result := AcceptJobIn(s, a, reference, maxAttempts, at, token);
    if result.Ok? {
      var existing := Newest(s.permits, AtOrdinal(a.invocation, a.ordinal));
      if existing.Some? {
        TimelyAccept(s, a, existing.value.token, reference, maxAttempts, at.first, at.third);
      } else {
        IssueShape(s, a, maxAttempts, at, token);
        AcceptsTheNewOne(s, a, reference, maxAttempts, at, token);
      }
    }
  }

  /** The permit just issued is the one accepted. */
  lemma FindsTheNewOne(s: Store, a: Attempt, permit: Permit, token: string)
    requires FindLast(s.permits, AtOrdinal(a.invocation, a.ordinal)).None?
    ensures var found := FindLast(s.permits + [permit], Pending(a, token));
            found.Some? ==> found.value == |s.permits|
  {
    var permits := s.permits + [permit];
    var found := FindLast(permits, Pending(a, token));
    assert forall i | 0 <= i < |s.permits| :: !AtOrdinal(a.invocation, a.ordinal)(s.permits[i]);
    assert forall i | 0 <= i < |s.permits| :: permits[i] == s.permits[i];
  }

  /** Acceptance touches the pending permit it finds and no other. */
  lemma AcceptTouchesOne(s: Store, a: Attempt, token: string, reference: string, maxAttempts: nat, now: nat)
    requires AcceptIn(s, a, token, reference, maxAttempts, now).Ok?
    ensures var permits := AcceptIn(s, a, token, reference, maxAttempts, now).value.permits;
            var found := FindLast(s.permits, Pending(a, token));
            && found.Some? && found.value < |s.permits| == |permits|
            && (forall i | 0 <= i < |permits| && i != found.value :: permits[i] == s.permits[i])
            && permits[found.value].finished == s.permits[found.value].finished
  {
    hide FindLast, Superseded, CurrentRevision;
  }

  lemma AcceptsTheNewOne(s: Store, a: Attempt, reference: string, maxAttempts: nat, at: Clock, token: string)
    requires FindLast(s.permits, AtOrdinal(a.invocation, a.ordinal)).None?
    requires IssueIn(s, a, maxAttempts, at, token).Ok?
    ensures var issued := IssueIn(s, a, maxAttempts, at, token).value;
            var result := AcceptIn(issued, a, token, reference, maxAttempts, at.third);
            result.Ok? ==> Timely(s, result.value, at.first)
  {
    hide IssueIn, AcceptIn, FindLast, Superseded, CurrentRevision;
    IssueShape(s, a, maxAttempts, at, token);
    var issued := IssueIn(s, a, maxAttempts, at, token).value;
    var result := AcceptIn(issued, a, token, reference, maxAttempts, at.third);
    if result.Ok? {
      FindsTheNewOne(s, a, issued.permits[|s.permits|], token);
      AcceptTouchesOne(issued, a, token, reference, maxAttempts, at.third);
    }
  }

  /** Closing a permit keeps its result unless the recovery deadline has passed. */
  lemma TimelyClose(s: Store, s': Store, i: nat, result: DispatchResult, mode: AnswerRecovery, now: nat)
    requires i < |s.permits| && |s'.permits| == |s.permits| && s.permits[i].consumed
    requires s'.permits[i] == FinishedPermit(s.permits[i], result, mode, now)
    requires forall j | 0 <= j < |s.permits| && j != i ::
               s'.permits[j] == s.permits[j] || s'.permits[j] == s.permits[j].(requestKey := None)
    ensures Timely(s, s', now)
  {
    hide Superseded;
  }

  lemma TimelyComplete(s: Store, a: Attempt, e: Execution, mode: AnswerRecovery,
                       budget: Option<BudgetAdmission>, at: Clock)
    requires StoreInv(s)
    ensures var result := Complete(s, a, e, mode, budget, at);
            result.Ok? ==> Timely(s, result.value, at.first)
  {
    if Complete(s, a, e, mode, budget, at).Ok? {
      hide LedgerInv, RegistryInv, FindLast, Complete, Keeps, WithLedger, FinishedPermit, Outcome, Timely;
      CompletionShape(s, a, e, mode, budget, at);
      HandedOutInFlight(s, a);
      var s' := Complete(s, a, e, mode, budget, at).value;
      var i := FindLast(s.permits, InFlightFor(a)).value;
      TimelyClose(s, s', i, Outcome(HandedOut(s, a).value, e).0, mode, at.first);
    }
  }

  lemma TimelyTrim(s: Store, s': Store, now: nat)
    requires |s'.permits| == |s.permits|
    requires forall i | 0 <= i < |s.permits| ::
               var p, q := s.permits[i], s'.permits[i];
               q.consumed == p.consumed && q.finished == p.finished && q.result == p.result
    ensures Timely(s, s', now)
  {
  }

  lemma TimelyPurge(s: Store, now: nat)
    ensures Timely(s, PurgeResults(s, now), now)
  {
    hide Expiry.Batch, Expiry.DueRows, Superseded;
    forall i | 0 <= i < |s.permits|
      ensures TimelyRow(s, s.permits[i], PurgeResults(s, now).permits[i], now)
    {
      PurgedRow(s, now, i);
    }
  }

  /** Ledger transactions touch permits only through retired bindings. */
  lemma LedgerStepTrims(s: Store, e: Event)
    requires !(e.op.OpConsume? || e.op.OpAcceptJob? || e.op.OpIssue? || e.op.OpAdmit?
               || e.op.OpComplete? || e.op.OpPurgeResults?)
    ensures Timely(s, Step(s, e), e.at.first)
  {
    hide FindLast, Reserve, FinishWithAnswer, Release, AcquireHandoff, ConstrainAnswer, DiscardAnswer;
    hide Erase, StateOf, Timely, WithLedger;
    TimelyTrim(s, Step(s, e), e.at.first);
  }

  lemma TimelyStep(s: Store, e: Event)
    requires StoreInv(s) && InOrder(e.at)
    ensures Timely(s, Step(s, e), e.at.first)
  {
    hide LedgerInv, RegistryInv, FindLast, Reserve, AcceptIn, AcceptJobIn, IssueIn, Complete, Admit;
    hide ReserveHandoff, PurgeResults, Superseded;
    match e.op
    case OpConsume(a, token, handoff, maxAttempts) =>
      TimelyAccept(s, a, token, handoff.reservation.reference, maxAttempts, e.at.first, e.at.first);
    case OpAcceptJob(a, r, attemptLimit, maxAttempts, token) =>
      var reserved := Reserve(s.ledger, r, Some(attemptLimit), None);
      if reserved.Ok? {
        TimelyAcceptJob(s.(ledger := reserved.value.1), a, r.reference, maxAttempts, e.at, token);
      }
    case OpIssue(a, maxAttempts, token) =>
      if IssueIn(s, a, maxAttempts, e.at, token).Ok? {
        IssueShape(s, a, maxAttempts, e.at, token);
      }
    case OpAdmit(a, key, policy) =>
      if Admit(s, a, key, policy, e.at.first).Ok? {
        AdmitShape(s, a, key, policy, e.at.first);
      }
    case OpComplete(a, execution, mode, budget) =>
      TimelyComplete(s, a, execution, mode, budget, e.at);
    case OpPurgeResults =>
      TimelyPurge(s, e.at.first);
    case _ =>
      LedgerStepTrims(s, e);
  }

  // ---- Nondecreasing runs -------------------------------------------------------

  /** Events at times that never go back and lie between `from` and `to`. */
  ghost predicate Between(from: nat, events: seq<Event>, to: nat) {
    && from <= to
    && (forall i | 0 <= i < |events| :: InOrder(events[i].at) && from <= events[i].at.first && events[i].at.third <= to)
    && (forall i, j | 0 <= i < j < |events| :: events[i].at.third <= events[j].at.first)
  }

  ghost predicate ResultsKept(s: Store, now: nat) {
    forall p <- s.permits :: ResultMissing(p) ==> p.attempt.recoveryExpiresAt <= now
  }

  lemma {:induction false} RunKeepsResults(s: Store, from: nat, events: seq<Event>, to: nat)
    requires StoreInv(s) && ResultsKept(s, from) && Between(from, events, to)
    ensures ResultsKept(Run(s, events), to)
  {
    hide LedgerInv, RegistryInv, Step;
    if events != [] {
      var before, last := events[..|events| - 1], events[|events| - 1];
      RunKeepsResults(s, from, before, last.at.first);
      RunKeeps(s, before);
      TimelyStep(Run(s, before), last);
      StepKeeps(Run(s, before), last);
      var s1, s2 := Run(s, before), Run(s, events);
      forall i | 0 <= i < |s2.permits| && ResultMissing(s2.permits[i])
        ensures s2.permits[i].attempt.recoveryExpiresAt <= to
      {
        assert i < |s1.permits|;
        assert TimelyRow(s1, s1.permits[i], s2.permits[i], last.at.first);
        assert PermitEvolves(s1.permits[i], s2.permits[i]);
      }
    }
  }

  // ---- Invalidated permits stay invalidated -------------------------------------

  predicate Dead(s: Store, i: nat, now: nat) {
    i < |s.permits| && !s.permits[i].consumed && !Acceptable(s, s.permits[i], now)
  }

  lemma StaysUnacceptable(s: Store, s': Store, i: nat, now: nat, now': nat)
    requires StoreInv(s) && StoreAdvances(s, s') && Dead(s, i, now) && now <= now'
    ensures !Acceptable(s', s'.permits[i], now')
  {
    hide LedgerInv, Advances;
    var a := s.permits[i].attempt;
    assert PermitEvolves(s.permits[i], s'.permits[i]);
    assert RevisionOk(s.revisions, s.permits[i]);
    var found := FindLast(s.permits, After(a.invocation, a.ordinal));
    if found.Some? {
      assert After(a.invocation, a.ordinal)(s.permits[found.value]);
      assert PermitEvolves(s.permits[found.value], s'.permits[found.value]);
      assert After(a.invocation, a.ordinal)(s'.permits[found.value]);
    }
  }

  lemma {:induction false} DeadForGood(s: Store, i: nat, from: nat, events: seq<Event>, to: nat)
    requires StoreInv(s) && Dead(s, i, from) && Between(from, events, to)
    ensures Dead(Run(s, events), i, to)
  {
    hide LedgerInv, RegistryInv, Step;
    if events == [] {
      Unchanged(s);
      StaysUnacceptable(s, s, i, from, to);
    } else {
      var before, last := events[..|events| - 1], events[|events| - 1];
      DeadForGood(s, i, from, before, last.at.first);
      RunKeeps(s, before);
      var s1 := Run(s, before);
      TimelyStep(s1, last);
      StepKeeps(s1, last);
      assert TimelyRow(s1, s1.permits[i], Run(s, events).permits[i], last.at.first);
      StaysUnacceptable(s1, Run(s, events), i, last.at.first, to);
    }
  }

  // ---- Status -------------------------------------------------------------------

  /** The order in which an attempt's status may move. */
  predicate Forward(a: AttemptStatus, b: AttemptStatus) {
    match a
    case NotIssued => true
    case Permitted => !b.NotIssued?
    case Invalidated => b.Invalidated?
    case Dispatched(_) => b.Dispatched? || b.FinishedWithoutAnswer? || b.Completed? || b.Failed? || b.Expired?
    case FinishedWithoutAnswer(_) => b.FinishedWithoutAnswer?
    case Completed(r) => b.Expired? || (b.Completed? && b.result.answer == r.answer)
    case Failed(_) => b.Expired? || b.Failed?
    case Expired => b.Expired?
  }

  lemma PermitAt(s: Store, i: nat, now: nat)
    requires StoreInv(s) && i < |s.permits|
    ensures var a := s.permits[i].attempt;
            StatusAt(s, a.invocation, a.ordinal, now) == StatusOf(s, s.permits[i], now)
  {
    hide LedgerInv;
    var a := s.permits[i].attempt;
    assert AtOrdinal(a.invocation, a.ordinal)(s.permits[i]);
    var found := FindLast(s.permits, AtOrdinal(a.invocation, a.ordinal)).value;
    assert AtOrdinal(a.invocation, a.ordinal)(s.permits[found]);
    SameAttempt(s, i, found);
    assert RevisionOk(s.revisions, s.permits[i]);
  }

  /** A status is always known: no receipt and no unexpired result is ever missing. */
  lemma StatusIsKnown(s: Store, p: Permit, now: nat)
    requires PermitOk(s.ledger, p) && (ResultMissing(p) ==> p.attempt.recoveryExpiresAt <= now)
    ensures StatusOf(s, p, now).Ok?
  {
    hide FindLast, Superseded;
  }

  lemma StatusMovesForward(s: Store, s': Store, p: Permit, q: Permit, now: nat, now': nat)
    requires PermitOk(s.ledger, p) && PermitOk(s'.ledger, q) && PermitEvolves(p, q) && now <= now'
    requires ResultMissing(p) ==> p.attempt.recoveryExpiresAt <= now
    requires ResultMissing(q) ==> q.attempt.recoveryExpiresAt <= now'
    requires !p.consumed && !Acceptable(s, p, now) ==> !q.consumed && !Acceptable(s', q, now')
    ensures StatusOf(s, p, now).Ok? && StatusOf(s', q, now').Ok?
    ensures Forward(StatusOf(s, p, now).value, StatusOf(s', q, now').value)
  {
    StatusIsKnown(s, p, now);
    StatusIsKnown(s', q, now');
    hide FindLast, Superseded, ReceiptIndex;
  }

  /** In every run whose clock never moves back, each attempt's status is known at every
      time and only moves forward; an invalidated permit is never accepted. */
  lemma StatusOnlyMovesForward(events: seq<Event>, later: seq<Event>, invocation: InvocationKey,
                               ordinal: nat, now: nat, now': nat)
    requires Between(0, events, now) && Between(now, later, now')
    ensures var s := Run(EMPTY_STORE, events);
            var before := StatusAt(s, invocation, ordinal, now);
            var after := StatusAt(Run(s, later), invocation, ordinal, now');
            before.Ok? && after.Ok? && Forward(before.value, after.value)
  {
    hide LedgerInv, RegistryInv, Step, StatusOf;
    var s := Run(EMPTY_STORE, events);
    var s' := Run(s, later);
    Reachable(events);
    RunKeeps(s, later);
    EmptyStoreInv();
    RunKeepsResults(EMPTY_STORE, 0, events, now);
    RunKeepsResults(s, now, later, now');
    var found := FindLast(s.permits, AtOrdinal(invocation, ordinal));
    if found.Some? {
      var i := found.value;
      assert AtOrdinal(invocation, ordinal)(s.permits[i]);
      assert PermitEvolves(s.permits[i], s'.permits[i]);
      PermitAt(s, i, now);
      PermitAt(s', i, now');
      if Dead(s, i, now) {
        DeadForGood(s, i, now, later, now');
      }
      PermitHolds(s, i);
      PermitHolds(s', i);
      assert s.permits[i] in s.permits && s'.permits[i] in s'.permits;
      StatusMovesForward(s, s', s.permits[i], s'.permits[i], now, now');
    } else {
      var found' := FindLast(s'.permits, AtOrdinal(invocation, ordinal));
      if found'.Some? {
        assert AtOrdinal(invocation, ordinal)(s'.permits[found'.value]);
        PermitAt(s', found'.value, now');
        PermitHolds(s', found'.value);
        assert s'.permits[found'.value] in s'.permits;
        StatusIsKnown(s', s'.permits[found'.value], now');
      }
    }
  }

  /** Whatever the clock did, a status is unknown exactly when a recoverable completion kept
      no result and the reader's clock is still before its recovery deadline. */
  lemma StatusUnknownExactlyWhen(events: seq<Event>, i: nat, now: nat)
    requires i < |Run(EMPTY_STORE, events).permits|
    ensures var s := Run(EMPTY_STORE, events);
            var p := s.permits[i];
            StatusAt(s, p.attempt.invocation, p.attempt.ordinal, now).Err?
            <==> p.finished == Recoverable && p.result.None? && now < p.attempt.recoveryExpiresAt
  {
    hide LedgerInv, RegistryInv, FindLast, Superseded;
    Reachable(events);
    PermitHolds(Run(EMPTY_STORE, events), i);
    PermitAt(Run(EMPTY_STORE, events), i, now);
  }
}
