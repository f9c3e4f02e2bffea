/** What a request budget promises over whole runs, and that a trusted pre-send failure is
    an exact undo. */
module BudgetTheorems {
  import opened Tables
  import opened Records
  import opened RequestBudget
  import opened Registry
  import opened SpendLedger

  // ---- Undo ---------------------------------------------------------------------

  /** After a debit at `now` and its pre-send undo, the budget seen at every later time is
      the one without the debit, also when the old cohort had already renewed. */
  lemma PreSendFailureIsUndo(policy: BudgetPolicy, row: Option<Failure>, now: nat, finishedAt: nat, later: nat)
    requires Debit(policy, row, now).Ok? && now <= later
    ensures var (debited, previous) := Debit(policy, row, now).value;
            var undone := Settle(Some(debited), previous, PreSendFailure, finishedAt);
            && LiveCohort(policy, undone, later) == LiveCohort(policy, row, later)
            && Debit(policy, undone, later) == Debit(policy, row, later)
  {
  }

  /** At an arbitrary time the undo is exact if and only if the debit had not already renewed
      the old cohort, or that cohort is not live at that time either. */
  lemma UndoIsExactWhen(policy: BudgetPolicy, row: Option<Failure>, now: nat, finishedAt: nat, time: nat)
    requires Debit(policy, row, now).Ok?
    ensures var (debited, previous) := Debit(policy, row, now).value;
            var undone := Settle(Some(debited), previous, PreSendFailure, finishedAt);
            LiveCohort(policy, undone, time) == LiveCohort(policy, row, time)
            <==> row.None? || !Renewed(policy, row.value, now) || Renewed(policy, row.value, time)
  {
  }

  function RowAt(s: Store, key: string): Option<Failure> {
    if key in s.failures then Some(s.failures[key]) else None
  }

  /** An admission debits exactly its key, and hands back the live state before it. */
  lemma AdmitDebitsKey(s: Store, a: Attempt, key: string, policy: BudgetPolicy, now: nat)
    requires Admit(s, a, key, Some(policy), now).Ok?
    ensures var (s', admission) := Admit(s, a, key, Some(policy), now).value;
            && Debit(policy, RowAt(s, key), now).Ok?
            && var (debited, previous) := Debit(policy, RowAt(s, key), now).value;
            && admission == Some(BudgetAdmission(key, previous))
            && s'.failures == s.failures[key := debited]
  {
    hide FindLast, StateOf, Debit;
  }

  /** How a completion settles the debit, read off the way the provider call ended. */
  function SettlementOf(e: Execution): Settlement {
    match e
    case NoCredential => PreSendFailure
    case Refused(mayHaveDispatched) => if mayHaveDispatched then RecordedFailure else PreSendFailure
    case Answered(_, _, accepted) => if accepted then Success else RecordedFailure
  }

  /** A completion settles exactly the key of its admission. */
  lemma CompleteSettlesKey(s: Store, a: Attempt, e: Execution, mode: AnswerRecovery,
                           budget: Option<BudgetAdmission>, at: Clock, key: string)
    requires Complete(s, a, e, mode, budget, at).Ok?
    ensures RowAt(Complete(s, a, e, mode, budget, at).value, key)
         == if budget.Some? && key == budget.value.key
            then Settle(RowAt(s, key), budget.value.previous, SettlementOf(e), at.second)
            else RowAt(s, key)
  {
    hide FindLast, StateOf, Settle, SpendLedger.Finish, WithLedger, FinishedPermit, UsageEvidence;
  }

  /** The same through the tables: admit, then complete without having sent. Meanwhile anything
      may happen that leaves the key's own row alone, other keys' dispatches included. */
  lemma RefusedDispatchRestoresBudget(s: Store, a: Attempt, key: string, policy: BudgetPolicy, now: nat,
                                      s1: Store, mode: AnswerRecovery, finishedAt: Clock,
                                      other: string, later: nat)
    requires Admit(s, a, key, Some(policy), now).Ok? && now <= later
    requires var (admitted, admission) := Admit(s, a, key, Some(policy), now).value;
             && RowAt(s1, key) == RowAt(admitted, key)
             && Complete(s1, a, Refused(false), mode, admission, finishedAt).Ok?
    ensures var admission := Admit(s, a, key, Some(policy), now).value.1;
            var s2 := Complete(s1, a, Refused(false), mode, admission, finishedAt).value;
            && LiveCohort(policy, RowAt(s2, key), later) == LiveCohort(policy, RowAt(s, key), later)
            && (other != key ==> RowAt(s2, other) == RowAt(s1, other))
  {
    hide Admit, Complete, Debit, Settle, LiveCohort;
    AdmitDebitsKey(s, a, key, policy, now);
    var admission := Admit(s, a, key, Some(policy), now).value.1;
    CompleteSettlesKey(s1, a, Refused(false), mode, admission, finishedAt, key);
    CompleteSettlesKey(s1, a, Refused(false), mode, admission, finishedAt, other);
    PreSendFailureIsUndo(policy, RowAt(s, key), now, finishedAt.second, later);
  }

  // ---- Runs of one request key --------------------------------------------------

  /** What happens to one key: an admission, its completion, or a crash that loses the
      in-memory admission and leaves its debit. */
  datatype BudgetOp = Send | Done(outcome: Settlement) | Crash

  datatype BudgetEvent = BudgetEvent(now: nat, op: BudgetOp)

  /** The key's row, the admission held under its gate, the times of the sends whose debit is
      kept, and the times of recorded successes. `settled` sends came before the last success. */
  datatype Trace = Trace(row: Option<Failure>, pending: Option<Option<Failure>>, sent: seq<nat>,
                         successes: seq<nat>, settled: nat)

  const NEW_TRACE := Trace(None, None, [], [], 0)

  /** Admission and completion are serialised per key: none is admitted while one is held. */
  function Act(policy: BudgetPolicy, t: Trace, e: BudgetEvent): Trace {
    match e.op
    case Send =>
      if t.pending.Some? then t
      else
        (match Debit(policy, t.row, e.now)
         case Err(_) => t
         case Ok((debited, previous)) =>
           t.(row := Some(debited), pending := Some(previous), sent := t.sent + [e.now]))
    case Done(outcome) =>
      if t.pending.None? then t
      else
        var row := Settle(t.row, t.pending.value, outcome, e.now);
        (match outcome
         case Success =>
           t.(row := row, pending := None, successes := t.successes + [e.now], settled := |t.sent|)
         case PreSendFailure =>
           t.(row := row, pending := None,
              sent := if t.sent == [] then [] else t.sent[..|t.sent| - 1])
         case RecordedFailure => t.(row := row, pending := None))
    case Crash => t.(pending := None)
  }

  function Acts(policy: BudgetPolicy, events: seq<BudgetEvent>): Trace {
    if events == [] then NEW_TRACE
    else Act(policy, Acts(policy, events[..|events| - 1]), events[|events| - 1])
  }

  // ---- The invariant ------------------------------------------------------------

  function InWindow(start: nat, width: nat): nat -> bool {
    (time: nat) => start <= time < start + width
  }

  /** Renewal never happens within `width` seconds of a failure. */
  predicate Spaced(policy: BudgetPolicy, width: nat) {
    policy.renewalSeconds.None? || (policy.renewalSeconds.value > 0 && width <= policy.renewalSeconds.value)
  }

  function Failed(row: Option<Failure>): nat {
    if row.Some? then row.value.failedSends else 0
  }

  /** The row counts the newest kept sends; every older send since the last success is out of
      reach of any window that ends after `now`. */
  ghost predicate Counts(policy: BudgetPolicy, width: nat, row: Option<Failure>, sent: seq<nat>,
                         settled: nat, now: nat)
  {
    var cohort := |sent| - Failed(row);
    && Failed(row) <= policy.attempts
    && settled <= cohort
    && (forall i | settled <= i < cohort :: sent[i] + width <= now)
    && (row.Some? ==> row.value.lastFailure <= now
                      && forall i | cohort <= i < |sent| :: sent[i] <= row.value.lastFailure)
  }

  ghost predicate Windows(policy: BudgetPolicy, width: nat, t: Trace) {
    forall start: nat | (forall time <- t.successes :: !InWindow(start, width)(time)) ::
      Count(t.sent, InWindow(start, width)) <= policy.attempts
  }

  /** Sends before the last success came no later than it, the others no earlier. */
  ghost predicate Split(t: Trace, now: nat) {
    && t.settled <= |t.sent|
    && (forall time <- t.sent :: time <= now)
    && (t.settled > 0 ==> t.successes != [])
    && (t.successes != [] ==>
          var last := t.successes[|t.successes| - 1];
          && last <= now
          && (forall i | 0 <= i < t.settled :: t.sent[i] <= last)
          && (forall i | t.settled <= i < |t.sent| :: last <= t.sent[i]))
  }

  ghost predicate TraceInv(policy: BudgetPolicy, width: nat, t: Trace, now: nat) {
    && Split(t, now)
    && Counts(policy, width, t.row, t.sent, t.settled, now)
    && (t.pending.Some? ==>
          && t.row.Some? && t.settled < |t.sent|
          && Counts(policy, width, t.pending.value, t.sent[..|t.sent| - 1], t.settled, now))
    && Windows(policy, width, t)
  }

  // ---- Every event keeps it -----------------------------------------------------

  lemma {:induction false} CountInSuffix(sent: seq<nat>, from: nat, p: nat -> bool)
    requires from <= |sent| && forall i | 0 <= i < from :: !p(sent[i])
    ensures Count(sent, p) <= |sent| - from
  {
    if |sent| == from {
      CountZero(sent, p);
    } else {
      CountInSuffix(sent[..|sent| - 1], from, p);
    }
  }

  /** A window without a success that reaches `now` sees only the live cohort. */
  lemma WindowSeesCohort(policy: BudgetPolicy, width: nat, t: Trace, start: nat, now: nat)
    requires Spaced(policy, width) && Split(t, now)
    requires Counts(policy, width, t.row, t.sent, t.settled, now)
    requires InWindow(start, width)(now)
    requires forall time <- t.successes :: !InWindow(start, width)(time)
    ensures Count(t.sent, InWindow(start, width)) <= Spent(policy, t.row, now)
  {
    var live := |t.sent| - Spent(policy, t.row, now);
    forall i | 0 <= i < live
      ensures !InWindow(start, width)(t.sent[i])
    {
      if i < t.settled {
        assert !InWindow(start, width)(t.successes[|t.successes| - 1]);
      }
    }
    CountInSuffix(t.sent, live, InWindow(start, width));
  }

  lemma SendCounts(policy: BudgetPolicy, width: nat, t: Trace, before: nat, now: nat)
    requires Spaced(policy, width) && Counts(policy, width, t.row, t.sent, t.settled, before) && before <= now
    requires Debit(policy, t.row, now).Ok?
    ensures Counts(policy, width, LiveCohort(policy, t.row, now), t.sent, t.settled, now)
    ensures Counts(policy, width, Some(Debit(policy, t.row, now).value.0), t.sent + [now], t.settled, now)
  {
  }

  lemma SendKeeps(policy: BudgetPolicy, width: nat, t: Trace, before: nat, now: nat)
    requires Spaced(policy, width) && TraceInv(policy, width, t, before) && before <= now
    requires t.pending.None? && Debit(policy, t.row, now).Ok?
    ensures TraceInv(policy, width, Act(policy, t, BudgetEvent(now, Send)), now)
  {
    var t' := Act(policy, t, BudgetEvent(now, Send));
    assert t'.sent[..|t'.sent| - 1] == t.sent;
    SendCounts(policy, width, t, before, now);
    assert Spent(policy, t.row, now) < policy.attempts;
    hide Counts, Spent;
    forall start: nat | forall time <- t'.successes :: !InWindow(start, width)(time)
      ensures Count(t'.sent, InWindow(start, width)) <= policy.attempts
    {
      CountAppend(t.sent, now, InWindow(start, width));
      assert Count(t.sent, InWindow(start, width)) <= policy.attempts;
      if InWindow(start, width)(now) {
        WindowReaches(policy, width, t, start, before, now);
      }
    }
  }

  lemma WindowReaches(policy: BudgetPolicy, width: nat, t: Trace, start: nat, before: nat, now: nat)
    requires Spaced(policy, width) && TraceInv(policy, width, t, before) && before <= now
    requires InWindow(start, width)(now)
    requires forall time <- t.successes :: !InWindow(start, width)(time)
    ensures Count(t.sent, InWindow(start, width)) <= Spent(policy, t.row, now)
  {
    hide Windows, Count;
    WindowSeesCohort(policy, width, t, start, now);
  }

  /** Completion only adds successes and takes back at most the last send. */
  lemma DoneWindows(policy: BudgetPolicy, width: nat, t: Trace, now: nat, outcome: Settlement)
    requires Windows(policy, width, t) && t.pending.Some? && t.sent != []
    ensures Windows(policy, width, Act(policy, t, BudgetEvent(now, Done(outcome))))
  {
    var t' := Act(policy, t, BudgetEvent(now, Done(outcome)));
    var shorter := t.sent[..|t.sent| - 1];
    hide Settle;
    forall start: nat | forall time <- t'.successes :: !InWindow(start, width)(time)
      ensures Count(t'.sent, InWindow(start, width)) <= policy.attempts
    {
      assert forall time <- t.successes :: time in t'.successes;
      assert Count(t.sent, InWindow(start, width)) <= policy.attempts;
      CountAppend(shorter, t.sent[|t.sent| - 1], InWindow(start, width));
      assert shorter + [t.sent[|t.sent| - 1]] == t.sent;
    }
  }

  lemma DoneKeeps(policy: BudgetPolicy, width: nat, t: Trace, before: nat, now: nat, outcome: Settlement)
    requires TraceInv(policy, width, t, before) && before <= now && t.pending.Some?
    ensures TraceInv(policy, width, Act(policy, t, BudgetEvent(now, Done(outcome))), now)
  {
    DoneWindows(policy, width, t, now, outcome);
    hide Windows;
  }

  lemma ActKeeps(policy: BudgetPolicy, width: nat, t: Trace, before: nat, e: BudgetEvent)
    requires Spaced(policy, width) && TraceInv(policy, width, t, before) && before <= e.now
    ensures TraceInv(policy, width, Act(policy, t, e), e.now)
  {
    match e.op
    case Send =>
      if t.pending.None? && Debit(policy, t.row, e.now).Ok? {
        SendKeeps(policy, width, t, before, e.now);
      }
    case Done(outcome) =>
      if t.pending.Some? {
        DoneKeeps(policy, width, t, before, e.now, outcome);
      }
    case Crash =>
  }

  ghost predicate Nondecreasing(events: seq<BudgetEvent>) {
    forall i, j | 0 <= i < j < |events| :: events[i].now <= events[j].now
  }

  lemma {:induction false} ActsKeep(policy: BudgetPolicy, width: nat, events: seq<BudgetEvent>)
    requires Spaced(policy, width) && Nondecreasing(events)
    ensures TraceInv(policy, width, Acts(policy, events),
                     if events == [] then 0 else events[|events| - 1].now)
  {
    if events == [] {
      forall start: nat
        ensures Count(NEW_TRACE.sent, InWindow(start, width)) <= policy.attempts
      {
      }
    } else {
      var earlier := events[..|events| - 1];
      ActsKeep(policy, width, earlier);
      ActKeeps(policy, width, Acts(policy, earlier),
               if earlier == [] then 0 else earlier[|earlier| - 1].now, events[|events| - 1]);
    }
  }

  /** The budget over time: any window no longer than the renewal interval (of any length when
      the budget never renews) that contains no success admits at most `attempts` sends whose
      debit is kept. Crashed sends count; trusted pre-send undos do not. */
  lemma WindowBound(policy: BudgetPolicy, width: nat, events: seq<BudgetEvent>, start: nat)
    requires Spaced(policy, width) && Nondecreasing(events)
    requires forall time <- Acts(policy, events).successes :: !(start <= time < start + width)
    ensures Count(Acts(policy, events).sent, InWindow(start, width)) <= policy.attempts
  {
    ActsKeep(policy, width, events);
    forall time <- Acts(policy, events).successes
      ensures !InWindow(start, width)(time)
    {
    }
  }

  /** The other side: an admission is refused only when at least `attempts` kept sends follow the
      last success and the newest failure has not renewed. */
  lemma RefusedOnlyWhenSpent(policy: BudgetPolicy, events: seq<BudgetEvent>, now: nat)
    requires Spaced(policy, 0) && Nondecreasing(events) && (events != [] ==> events[|events| - 1].now <= now)
    requires policy.attempts > 0 && Debit(policy, Acts(policy, events).row, now).Err?
    ensures var t := Acts(policy, events);
            && policy.attempts <= |t.sent| - t.settled
            && t.row.Some? && !Renewed(policy, t.row.value, now)
  {
    ActsKeep(policy, 0, events);
  }

  // ---- An undone send leaves no trace -------------------------------------------

  /** Two traces that nobody can tell apart from `now` on: they agree on everything but the row,
      and on the row too unless no admission is held and both rows count the same from now on. */
  ghost predicate Alike(policy: BudgetPolicy, t: Trace, u: Trace, now: nat) {
    && t.pending == u.pending && t.sent == u.sent && t.successes == u.successes && t.settled == u.settled
    && (t.row == u.row || (t.pending.None? && forall time: nat | now <= time ::
                             LiveCohort(policy, t.row, time) == LiveCohort(policy, u.row, time)))
  }

  lemma ActsAlike(policy: BudgetPolicy, t: Trace, u: Trace, before: nat, e: BudgetEvent)
    requires Alike(policy, t, u, before) && before <= e.now
    ensures Alike(policy, Act(policy, t, e), Act(policy, u, e), e.now)
  {
    if e.op == Send && t.pending.None? {
      assert LiveCohort(policy, t.row, e.now) == LiveCohort(policy, u.row, e.now);
      assert Debit(policy, t.row, e.now) == Debit(policy, u.row, e.now);
    }
  }

  function EndOf(events: seq<BudgetEvent>, otherwise: nat): nat {
    if events == [] then otherwise else events[|events| - 1].now
  }

  /** A send and its undo before it left. */
  function SentAndUndone(sentAt: nat, undoneAt: nat): seq<BudgetEvent> {
    [BudgetEvent(sentAt, Send), BudgetEvent(undoneAt, Done(PreSendFailure))]
  }

  /** Deleting an admitted send and its undo from the history of a key changes nothing that is
      seen later: neither the kept sends nor the budget at any later time. */
  lemma {:induction false} UndoneSendLeavesNoTrace(policy: BudgetPolicy, before: seq<BudgetEvent>, sentAt: nat,
                                                   undoneAt: nat, after: seq<BudgetEvent>)
    requires Nondecreasing(before + SentAndUndone(sentAt, undoneAt) + after)
    requires Acts(policy, before).pending.None? && Debit(policy, Acts(policy, before).row, sentAt).Ok?
    ensures Alike(policy, Acts(policy, before + SentAndUndone(sentAt, undoneAt) + after),
                  Acts(policy, before + after), EndOf(after, undoneAt))
  {
    var undone := SentAndUndone(sentAt, undoneAt);
    if after == [] {
      assert before + undone + after == (before + [undone[0]]) + [undone[1]] && before + after == before;
      ActsAppend(policy, before, undone[0]);
      ActsAppend(policy, before + [undone[0]], undone[1]);
      UndoneSendIsAlike(policy, Acts(policy, before), sentAt, undoneAt);
    } else {
      var shorter, last := after[..|after| - 1], after[|after| - 1];
      assert before + undone + after == (before + undone + shorter) + [last];
      assert before + after == (before + shorter) + [last];
      assert Nondecreasing(before + undone + shorter) by {
        assert before + undone + shorter == (before + undone + after)[..|before + undone + shorter|];
      }
      UndoneSendLeavesNoTrace(policy, before, sentAt, undoneAt, shorter);
      ActsAppend(policy, before + undone + shorter, last);
      ActsAppend(policy, before + shorter, last);
      LastInOrder(before + undone, after, undoneAt);
      ActsAlike(policy, Acts(policy, before + undone + shorter), Acts(policy, before + shorter),
                EndOf(shorter, undoneAt), last);
    }
  }

  lemma ActsAppend(policy: BudgetPolicy, events: seq<BudgetEvent>, e: BudgetEvent)
    ensures Acts(policy, events + [e]) == Act(policy, Acts(policy, events), e)
  {
    assert (events + [e])[..|events|] == events;
  }

  lemma LastInOrder(before: seq<BudgetEvent>, after: seq<BudgetEvent>, time: nat)
    requires Nondecreasing(before + after) && before != [] && before[|before| - 1].now == time && after != []
    ensures EndOf(after[..|after| - 1], time) <= after[|after| - 1].now
  {
    var all, n := before + after, |before + after|;
    assert all[n - 1] == after[|after| - 1];
    assert all[|before| - 1] == before[|before| - 1];
    if |after| > 1 {
      assert all[n - 2] == after[|after| - 2];
    }
  }

  lemma UndoneSendIsAlike(policy: BudgetPolicy, t: Trace, sentAt: nat, undoneAt: nat)
    requires t.pending.None? && Debit(policy, t.row, sentAt).Ok? && sentAt <= undoneAt
    ensures Alike(policy, Act(policy, Act(policy, t, BudgetEvent(sentAt, Send)),
                              BudgetEvent(undoneAt, Done(PreSendFailure))), t, undoneAt)
  {
    assert (t.sent + [sentAt])[..|t.sent|] == t.sent;
    var sent := Act(policy, t, BudgetEvent(sentAt, Send));
    var undone := Act(policy, sent, BudgetEvent(undoneAt, Done(PreSendFailure)));
    forall time: nat | undoneAt <= time
      ensures LiveCohort(policy, undone.row, time) == LiveCohort(policy, t.row, time)
    {
      PreSendFailureIsUndo(policy, t.row, sentAt, undoneAt, time);
    }
  }

  // ---- When a spent budget admits again -----------------------------------------

  /** The next admission of a key that holds none is accepted. */
  predicate Admits(policy: BudgetPolicy, t: Trace, now: nat) {
    t.pending.None? ==> Act(policy, t, BudgetEvent(now, Send)).sent == t.sent + [now]
  }

  predicate IsSendOrDone(e: BudgetEvent) {
    e.op.Send? || e.op.Done?
  }

  /** At `now` that many seconds have passed since every send and every completion. */
  ghost predicate QuietFor(events: seq<BudgetEvent>, seconds: nat, now: nat) {
    forall j | 0 <= j < |events| && IsSendOrDone(events[j]) :: events[j].now + seconds <= now
  }

  /** Some send or completion is at least as late as the row's last failure. */
  ghost predicate Dated(events: seq<BudgetEvent>, row: Option<Failure>) {
    row.Some? ==> exists j :: 0 <= j < |events| && IsSendOrDone(events[j]) && row.value.lastFailure <= events[j].now
  }

  lemma DatedLonger(events: seq<BudgetEvent>, e: BudgetEvent, row: Option<Failure>)
    requires Dated(events, row) || (row.Some? && IsSendOrDone(e) && row.value.lastFailure <= e.now)
    ensures Dated(events + [e], row)
  {
    if row.Some? {
      if IsSendOrDone(e) && row.value.lastFailure <= e.now {
        assert (events + [e])[|events|] == e;
      } else {
        var j :| 0 <= j < |events| && IsSendOrDone(events[j]) && row.value.lastFailure <= events[j].now;
        assert (events + [e])[j] == events[j];
      }
    }
  }

  lemma {:induction false} RowsAreDated(policy: BudgetPolicy, events: seq<BudgetEvent>)
    ensures var t := Acts(policy, events);
            Dated(events, t.row) && (t.pending.Some? ==> Dated(events, t.pending.value))
  {
    if events != [] {
      var earlier, e := events[..|events| - 1], events[|events| - 1];
      assert events == earlier + [e];
      RowsAreDated(policy, earlier);
      var t, t' := Acts(policy, earlier), Acts(policy, events);
      ActIsDated(policy, earlier, t, e);
    }
  }

  lemma ActIsDated(policy: BudgetPolicy, events: seq<BudgetEvent>, t: Trace, e: BudgetEvent)
    requires Dated(events, t.row) && (t.pending.Some? ==> Dated(events, t.pending.value))
    ensures var t' := Act(policy, t, e);
            Dated(events + [e], t'.row) && (t'.pending.Some? ==> Dated(events + [e], t'.pending.value))
  {
    var t' := Act(policy, t, e);
    DatedLonger(events, e, t.row);
    if t.pending.Some? {
      DatedLonger(events, e, t.pending.value);
    }
    if t'.row.Some? && t'.row != t.row && !(t.pending.Some? && t'.row == t.pending.value) {
      if t.row.Some? && t'.row.value.lastFailure == t.row.value.lastFailure {
        assert Dated(events + [e], t.row);
      } else {
        assert t'.row.value.lastFailure == e.now;
        DatedLonger(events, e, t'.row);
      }
    }
    hide Dated;
  }

  /** With a positive interval a key is admitted again once that many seconds have passed since each
      of its sends and completions, whatever the clock did before; with a zero interval always. */
  lemma RenewedBudgetAdmits(policy: BudgetPolicy, events: seq<BudgetEvent>, now: nat)
    requires policy.attempts > 0 && policy.renewalSeconds.Some?
    requires policy.renewalSeconds.value > 0 ==> QuietFor(events, policy.renewalSeconds.value, now)
    ensures Admits(policy, Acts(policy, events), now)
    ensures Debit(policy, Acts(policy, events).row, now).Ok?
  {
    RowsAreDated(policy, events);
  }

  /** A recorded failure starts the interval at its completion, not at its admission: if the budget
      is used up then, the key is admitted again exactly from that many seconds later on. */
  lemma RenewalStartsAtCompletion(policy: BudgetPolicy, events: seq<BudgetEvent>, finished: nat, now: nat)
    requires policy.renewalSeconds.Some? && policy.renewalSeconds.value > 0 && policy.attempts > 0
    requires Nondecreasing(events + [BudgetEvent(finished, Done(RecordedFailure))]) && finished <= now
    requires Acts(policy, events).pending.Some?
    ensures var t := Acts(policy, events + [BudgetEvent(finished, Done(RecordedFailure))]);
            && t.pending.None?
            && (Admits(policy, t, now)
                <==> Admits(policy, t, finished) || finished + policy.renewalSeconds.value <= now)
  {
    var done := BudgetEvent(finished, Done(RecordedFailure));
    ActsAppend(policy, events, done);
    RowsAreDated(policy, events);
    var t0 := Acts(policy, events);
    assert Nondecreasing(events) by {
      assert events == (events + [done])[..|events|];
    }
    ActsKeep(policy, 0, events);
    assert t0.row.Some?;
    assert t0.row.value.lastFailure <= finished by {
      var j :| 0 <= j < |events| && IsSendOrDone(events[j]) && t0.row.value.lastFailure <= events[j].now;
      assert (events + [done])[j] == events[j] && (events + [done])[|events|] == done;
    }
  }

  // ---- A budget that never renews -----------------------------------------------

  ghost predicate Tallied(t: Trace) {
    && t.settled <= |t.sent| && Failed(t.row) == |t.sent| - t.settled
    && (t.pending.Some? ==> t.settled < |t.sent| && Failed(t.pending.value) == |t.sent| - 1 - t.settled
                            && t.row.Some? && (t.pending.value.Some? ==> t.pending.value.value.failedSends > 0))
    && (t.row.Some? ==> t.row.value.failedSends > 0)
  }

  lemma {:induction false} NeverRenewingTallies(policy: BudgetPolicy, events: seq<BudgetEvent>)
    requires policy.renewalSeconds.None?
    ensures Tallied(Acts(policy, events))
  {
    if events != [] {
      NeverRenewingTallies(policy, events[..|events| - 1]);
    }
  }

  /** Without an interval a key is admitted exactly while fewer than `attempts` kept sends follow its
      last success, whatever the clock does. */
  lemma NeverRenewingAdmitsExactlyWhen(policy: BudgetPolicy, events: seq<BudgetEvent>, now: nat)
    requires policy.renewalSeconds.None? && Acts(policy, events).pending.None?
    ensures var t := Acts(policy, events);
            t.settled <= |t.sent| && (Admits(policy, t, now) <==> |t.sent| - t.settled < policy.attempts)
  {
    NeverRenewingTallies(policy, events);
  }

  // ---- A clock that goes back ---------------------------------------------------

  ghost predicate Covers(row: Option<Failure>, sent: seq<nat>) {
    && Failed(row) <= |sent|
    && (row.Some? ==> forall i | |sent| - Failed(row) <= i < |sent| :: sent[i] <= row.value.lastFailure)
  }

  ghost predicate CoveredTrace(t: Trace) {
    && Covers(t.row, t.sent)
    && (t.pending.Some? ==> t.sent != [] && t.row.Some? && Covers(t.pending.value, t.sent[..|t.sent| - 1]))
  }

  lemma {:induction false} CohortsAreCovered(policy: BudgetPolicy, events: seq<BudgetEvent>)
    ensures CoveredTrace(Acts(policy, events))
  {
    if events != [] {
      var earlier, e := events[..|events| - 1], events[|events| - 1];
      CohortsAreCovered(policy, earlier);
      ActCovers(policy, Acts(policy, earlier), e);
    }
  }

  lemma ActCovers(policy: BudgetPolicy, t: Trace, e: BudgetEvent)
    requires CoveredTrace(t)
    ensures CoveredTrace(Act(policy, t, e))
  {
    var t' := Act(policy, t, e);
    if e.op == Send && t.pending.None? && Debit(policy, t.row, e.now).Ok? {
      assert t'.sent[..|t'.sent| - 1] == t.sent;
    }
  }

  /** A positive interval never renews early, even after the clock went back: a cohort is dropped only
      that many seconds after every kept send it counts. */
  lemma NeverRenewsEarly(policy: BudgetPolicy, events: seq<BudgetEvent>, now: nat, i: nat)
    requires policy.renewalSeconds.Some? && policy.renewalSeconds.value > 0
    requires var t := Acts(policy, events);
             && t.row.Some? && LiveCohort(policy, t.row, now).None?
             && |t.sent| - t.row.value.failedSends <= i < |t.sent|
    ensures Acts(policy, events).sent[i] + policy.renewalSeconds.value <= now
  {
    CohortsAreCovered(policy, events);
  }
}
