/** The request budget under concurrent dispatch: tasks that register, wait and hold the gate
    of their key around one admission and its completion, interleaved with every other
    transaction and with restarts that lose all memory and keep the tables. */
module GatedBudget {
  import opened Tables
  import opened Records
  import opened RequestBudget
  import opened SpendLedger
  import opened Registry
  import opened BudgetTheorems
  import Expiry
  import Gates
  import Runs

  /** A log entry of one key, or of every key. */
  datatype Entry = Entry(key: Option<string>, event: BudgetEvent)

  /** `held` is the in-memory admission of each task. `log` records what happened. */
  datatype System = System(gates: Gates.Dispatch, store: Store, held: seq<Option<BudgetAdmission>>,
                           log: seq<Entry>)

  datatype Action =
    | GateStep(task: nat, action: Gates.Action)
    | AdmitStep(task: nat, attempt: Attempt)
    | FinishStep(task: nat, attempt: Attempt, execution: Execution, mode: AnswerRecovery)
    | Transaction(op: Runs.Op)
    | Restart

  datatype Move = Move(at: Clock, action: Action)

  predicate Unbudgeted(op: Runs.Op) {
    && (op.OpAdmit? ==> op.budgetPolicy.None?)
    && (op.OpComplete? ==> op.budget.None?)
  }

  predicate Holds(sys: System, c: nat) {
    c < |sys.gates.tasks| && c < |sys.held| && sys.gates.tasks[c].phase == Gates.Holding
  }

  /** One step; a step that is not enabled, or whose transaction is refused, changes nothing. A
      task that lets go of its gate with an admission in hand abandons it. */
  function Next(policies: string -> BudgetPolicy, sys: System, m: Move): System {
    match m.action
    case GateStep(c, action) =>
      if !Gates.Enabled(sys.gates, c, action) then sys
      else
        var moved := sys.(gates := Gates.Step(sys.gates, c, action));
        if action == Gates.Unlock && Holds(sys, c) && sys.held[c].Some?
        then moved.(held := sys.held[c := None],
                    log := sys.log + [Entry(Some(sys.held[c].value.key), BudgetEvent(m.at.first, Crash))])
        else moved
    case AdmitStep(c, a) =>
      if !Holds(sys, c) || sys.held[c].Some? then sys
      else
        var key := sys.gates.tasks[c].key;
        (match Admit(sys.store, a, key, Some(policies(key)), m.at.first)
         case Err(_) => sys
         case Ok((s, admission)) =>
           sys.(store := s, held := sys.held[c := admission],
                log := sys.log + [Entry(Some(key), BudgetEvent(m.at.first, Send))]))
    case FinishStep(c, a, execution, mode) =>
      if !Holds(sys, c) || sys.held[c].None? then sys
      else
        (match Complete(sys.store, a, execution, mode, sys.held[c], m.at)
         case Err(_) => sys
         case Ok(s) =>
           sys.(store := s, held := sys.held[c := None],
                log := sys.log + [Entry(Some(sys.held[c].value.key),
                                        BudgetEvent(m.at.second, Done(SettlementOf(execution))))]))
    case Transaction(op) =>
      if Unbudgeted(op) then sys.(store := Runs.Step(sys.store, Runs.Event(m.at, op))) else sys
    case Restart =>
      System(Gates.Start(|sys.gates.tasks|), sys.store, seq(|sys.held|, _ => None),
             sys.log + [Entry(None, BudgetEvent(m.at.first, Crash))])
  }

  function Interleave(policies: string -> BudgetPolicy, tasks: nat, moves: seq<Move>): System {
    if moves == [] then System(Gates.Start(tasks), EMPTY_STORE, seq(tasks, _ => None), [])
    else Next(policies, Interleave(policies, tasks, moves[..|moves| - 1]), moves[|moves| - 1])
  }

  // ---- What the log says of one key ---------------------------------------------

  predicate Concerns(entry: Entry, key: string) {
    entry.key.None? || entry.key.value == key
  }

  function EventsOf(log: seq<Entry>, key: string): seq<BudgetEvent> {
    if log == [] then []
    else
      var entry := log[|log| - 1];
      EventsOf(log[..|log| - 1], key) + if Concerns(entry, key) then [entry.event] else []
  }

  /** The times of the admitted sends of a key, without those undone before sending. */
  function KeptSends(events: seq<BudgetEvent>): seq<nat> {
    if events == [] then []
    else
      var earlier := KeptSends(events[..|events| - 1]);
      var e := events[|events| - 1];
      if e.op == Send then earlier + [e.now]
      else if e.op == Done(PreSendFailure) && earlier != [] then earlier[..|earlier| - 1]
      else earlier
  }

  function Successes(events: seq<BudgetEvent>): seq<nat> {
    if events == [] then []
    else
      var e := events[|events| - 1];
      Successes(events[..|events| - 1]) + if e.op == Done(Success) then [e.now] else []
  }

  // ---- The invariant ------------------------------------------------------------

  predicate HeldFor(sys: System, c: int, key: string) {
    0 <= c < |sys.held| && sys.held[c].Some? && sys.held[c].value.key == key
  }

  /** The tables and the memory of the tasks are those of one serialised trace of the key. */
  ghost predicate Serialised(sys: System, key: string, t: Trace) {
    && t.row == RowAt(sys.store, key)
    && t.sent == KeptSends(EventsOf(sys.log, key))
    && t.successes == Successes(EventsOf(sys.log, key))
    && (forall c | HeldFor(sys, c, key) :: t.pending == Some(sys.held[c].value.previous))
    && (t.pending.Some? ==> exists c :: HeldFor(sys, c, key))
  }

  /** A send is admitted while no other is held. */
  predicate Admitted(policy: BudgetPolicy, t: Trace, e: BudgetEvent) {
    e.op == Send ==> t.pending.None? && Debit(policy, t.row, e.now).Ok?
  }

  /** Every logged send was admitted. */
  ghost predicate Effective(policy: BudgetPolicy, events: seq<BudgetEvent>) {
    forall n | 0 <= n < |events| :: Admitted(policy, Acts(policy, events[..n]), events[n])
  }

  ghost predicate Refines(policies: string -> BudgetPolicy, sys: System, key: string) {
    var events := EventsOf(sys.log, key);
    Serialised(sys, key, Acts(policies(key), events)) && Effective(policies(key), events)
  }

  ghost predicate HeldUnderGate(sys: System) {
    && |sys.held| == |sys.gates.tasks|
    && (forall c | 0 <= c < |sys.held| && sys.held[c].Some? ::
          sys.gates.tasks[c].phase == Gates.Holding && sys.gates.tasks[c].key == sys.held[c].value.key)
  }

  ghost predicate SystemInv(policies: string -> BudgetPolicy, sys: System) {
    && Gates.GateInv(sys.gates)
    && HeldUnderGate(sys)
    && (forall key :: Refines(policies, sys, key))
  }

  // ---- Logging ------------------------------------------------------------------

  lemma Logged(policies: string -> BudgetPolicy, log: seq<Entry>, entry: Entry, key: string)
    ensures !Concerns(entry, key) ==> EventsOf(log + [entry], key) == EventsOf(log, key)
    ensures Concerns(entry, key) ==>
              var events := EventsOf(log, key);
              var sends := KeptSends(events);
              && EventsOf(log + [entry], key) == events + [entry.event]
              && Acts(policies(key), events + [entry.event])
                 == Act(policies(key), Acts(policies(key), events), entry.event)
              && KeptSends(events + [entry.event])
                 == (if entry.event.op == Send then sends + [entry.event.now]
                     else if entry.event.op == Done(PreSendFailure) && sends != [] then sends[..|sends| - 1]
                     else sends)
              && Successes(events + [entry.event])
                 == Successes(events) + if entry.event.op == Done(Success) then [entry.event.now] else []
  {
    assert (log + [entry])[..|log|] == log;
    var events := EventsOf(log, key);
    assert (events + [entry.event])[..|events|] == events;
  }

  lemma EffectiveAppend(policy: BudgetPolicy, events: seq<BudgetEvent>, e: BudgetEvent)
    requires Effective(policy, events) && Admitted(policy, Acts(policy, events), e)
    ensures Effective(policy, events + [e])
  {
    hide Acts;
    forall n | 0 <= n < |events + [e]|
      ensures Admitted(policy, Acts(policy, (events + [e])[..n]), (events + [e])[n])
    {
      assert n < |events| ==> (events + [e])[..n] == events[..n];
      assert n == |events| ==> (events + [e])[..n] == events;
      assert n < |events| ==> Admitted(policy, Acts(policy, events[..n]), events[n]);
    }
  }

  /** A key that an entry does not concern keeps its trace. */
  lemma OtherKey(policies: string -> BudgetPolicy, sys: System, sys': System, entry: Entry, key: string)
    requires Refines(policies, sys, key) && sys'.log == sys.log + [entry] && !Concerns(entry, key)
    requires RowAt(sys'.store, key) == RowAt(sys.store, key)
    requires |sys'.held| == |sys.held|
    requires forall c | 0 <= c < |sys.held| ::
               HeldFor(sys, c, key) == HeldFor(sys', c, key)
               && (HeldFor(sys, c, key) ==> sys'.held[c] == sys.held[c])
    ensures Refines(policies, sys', key)
  {
    Logged(policies, sys.log, entry, key);
    if exists c :: HeldFor(sys, c, key) {
      var c :| HeldFor(sys, c, key);
      assert HeldFor(sys', c, key);
    }
  }

  // ---- Every step refines the serialised trace ----------------------------------

  lemma OneHolder(d: Gates.Dispatch, c: nat, c': nat)
    requires Gates.GateInv(d) && c < |d.tasks| && c' < |d.tasks|
    requires d.tasks[c].phase == Gates.Holding && d.tasks[c'].phase == Gates.Holding
    requires d.tasks[c].key == d.tasks[c'].key
    ensures c == c'
  {
    hide Gates.Counted, Gates.Used, Gates.Injective;
  }

  /** The gate's holder is the only task that can have an admission of its key. */
  lemma OnlyHolder(sys: System, c: nat, c': nat)
    requires Gates.GateInv(sys.gates) && HeldUnderGate(sys) && Holds(sys, c)
    requires HeldFor(sys, c', sys.gates.tasks[c].key)
    ensures c' == c
  {
    hide Gates.GateInv;
    OneHolder(sys.gates, c, c');
  }

  lemma AdmitRefines(policies: string -> BudgetPolicy, sys: System, c: nat, a: Attempt, at: Clock, key: string)
    requires SystemInv(policies, sys) && Holds(sys, c) && sys.held[c].None?
    requires var k := sys.gates.tasks[c].key; Admit(sys.store, a, k, Some(policies(k)), at.first).Ok?
    ensures Refines(policies, Next(policies, sys, Move(at, AdmitStep(c, a))), key)
  {
    hide Gates.GateInv, Admit, Debit, EventsOf, Acts, KeptSends, Successes, Effective;
    var sys' := Next(policies, sys, Move(at, AdmitStep(c, a)));
    var k := sys.gates.tasks[c].key;
    var entry := Entry(Some(k), BudgetEvent(at.first, Send));
    AdmitDebitsKey(sys.store, a, k, policies(k), at.first);
    assert Refines(policies, sys, key);
    if key == k {
      Logged(policies, sys.log, entry, key);
      forall c' | HeldFor(sys, c', k)
        ensures false
      {
        OnlyHolder(sys, c, c');
      }
      assert HeldFor(sys', c, key);
      EffectiveAppend(policies(key), EventsOf(sys.log, key), entry.event);
    } else {
      OtherKey(policies, sys, sys', entry, key);
    }
  }

  lemma FinishRefines(policies: string -> BudgetPolicy, sys: System, c: nat, a: Attempt, e: Execution,
                      mode: AnswerRecovery, at: Clock, key: string)
    requires SystemInv(policies, sys) && Holds(sys, c) && sys.held[c].Some?
    requires Complete(sys.store, a, e, mode, sys.held[c], at).Ok?
    ensures Refines(policies, Next(policies, sys, Move(at, FinishStep(c, a, e, mode))), key)
  {
    hide Gates.GateInv, Complete, Settle, EventsOf, Acts, KeptSends, Successes, Effective, SettlementOf;
    var sys' := Next(policies, sys, Move(at, FinishStep(c, a, e, mode)));
    var k := sys.held[c].value.key;
    var entry := Entry(Some(k), BudgetEvent(at.second, Done(SettlementOf(e))));
    CompleteSettlesKey(sys.store, a, e, mode, sys.held[c], at, key);
    assert Refines(policies, sys, key);
    if key == k {
      Logged(policies, sys.log, entry, key);
      EffectiveAppend(policies(key), EventsOf(sys.log, key), entry.event);
      assert HeldFor(sys, c, key);
      forall c' | HeldFor(sys', c', k)
        ensures false
      {
        OnlyHolder(sys, c, c');
      }
    } else {
      OtherKey(policies, sys, sys', entry, key);
    }
  }

  lemma AbandonRefines(policies: string -> BudgetPolicy, sys: System, c: nat, at: Clock, key: string)
    requires SystemInv(policies, sys) && Gates.Enabled(sys.gates, c, Gates.Unlock)
    requires Holds(sys, c) && sys.held[c].Some?
    ensures Refines(policies, Next(policies, sys, Move(at, GateStep(c, Gates.Unlock))), key)
  {
    hide Gates.GateInv, Gates.Step, EventsOf, Acts, KeptSends, Successes, Effective;
    var sys' := Next(policies, sys, Move(at, GateStep(c, Gates.Unlock)));
    var k := sys.held[c].value.key;
    var entry := Entry(Some(k), BudgetEvent(at.first, Crash));
    assert Refines(policies, sys, key);
    if key == k {
      Logged(policies, sys.log, entry, key);
      EffectiveAppend(policies(key), EventsOf(sys.log, key), entry.event);
      forall c' | HeldFor(sys', c', k)
        ensures false
      {
        OnlyHolder(sys, c, c');
      }
    } else {
      OtherKey(policies, sys, sys', entry, key);
    }
  }

  lemma RestartRefines(policies: string -> BudgetPolicy, sys: System, at: Clock, key: string)
    requires Refines(policies, sys, key)
    ensures Refines(policies, Next(policies, sys, Move(at, Restart)), key)
  {
    hide EventsOf, Acts, KeptSends, Successes, Effective;
    Logged(policies, sys.log, Entry(None, BudgetEvent(at.first, Crash)), key);
    EffectiveAppend(policies(key), EventsOf(sys.log, key), BudgetEvent(at.first, Crash));
  }

  lemma SameRows(s: Store, s': Store)
    requires forall key :: RowAt(s', key) == RowAt(s, key)
    ensures s'.failures == s.failures
  {
    forall key
      ensures key in s'.failures <==> key in s.failures
      ensures key in s.failures ==> s'.failures[key] == s.failures[key]
    {
      assert RowAt(s', key) == RowAt(s, key);
    }
  }

  /** Nothing but a budgeted admission or completion touches a budget. */
  lemma OthersLeaveBudgets(s: Store, at: Clock, op: Runs.Op)
    requires Unbudgeted(op)
    ensures Runs.Step(s, Runs.Event(at, op)).failures == s.failures
  {
    hide FindLast, Reserve, FinishWithAnswer, Release, AcquireHandoff, ConstrainAnswer, DiscardAnswer, Erase;
    hide Complete, ReserveHandoff, LatestPermit, Retire, Expiry.Batch, StateOf, Succeed, Debit;
    if op.OpComplete? && Complete(s, op.a, op.execution, op.mode, None, at).Ok? {
      var s' := Complete(s, op.a, op.execution, op.mode, None, at).value;
      forall key
        ensures RowAt(s', key) == RowAt(s, key)
      {
        CompleteSettlesKey(s, op.a, op.execution, op.mode, None, at, key);
      }
      SameRows(s, s');
    }
  }

  lemma StepRefines(policies: string -> BudgetPolicy, sys: System, m: Move, key: string)
    requires SystemInv(policies, sys)
    ensures Refines(policies, Next(policies, sys, m), key)
  {
    hide Gates.GateInv, Gates.Step, Admit, Complete, Runs.Step, EventsOf, Acts, KeptSends, Successes, Effective;
    assert Refines(policies, sys, key);
    match m.action
    case GateStep(c, action) =>
      if Gates.Enabled(sys.gates, c, action) && action == Gates.Unlock && Holds(sys, c) && sys.held[c].Some? {
        AbandonRefines(policies, sys, c, m.at, key);
      } else {
        SameMemory(policies, sys, Next(policies, sys, m), key);
      }
    case AdmitStep(c, a) =>
      if Holds(sys, c) && sys.held[c].None? {
        var k := sys.gates.tasks[c].key;
        if Admit(sys.store, a, k, Some(policies(k)), m.at.first).Ok? {
          AdmitRefines(policies, sys, c, a, m.at, key);
        }
      }
    case FinishStep(c, a, execution, mode) =>
      if Holds(sys, c) && sys.held[c].Some?
         && Complete(sys.store, a, execution, mode, sys.held[c], m.at).Ok? {
        FinishRefines(policies, sys, c, a, execution, mode, m.at, key);
      }
    case Transaction(op) =>
      if Unbudgeted(op) {
        OthersLeaveBudgets(sys.store, m.at, op);
        SameMemory(policies, sys, Next(policies, sys, m), key);
      }
    case Restart => RestartRefines(policies, sys, m.at, key);
  }

  lemma SameMemory(policies: string -> BudgetPolicy, sys: System, sys': System, key: string)
    requires Refines(policies, sys, key) && sys'.held == sys.held && sys'.log == sys.log
    requires RowAt(sys'.store, key) == RowAt(sys.store, key)
    ensures Refines(policies, sys', key)
  {
    hide EventsOf, Acts, KeptSends, Successes, Effective;
    if exists c :: HeldFor(sys, c, key) {
      var c :| HeldFor(sys, c, key);
      assert HeldFor(sys', c, key);
    }
  }

  lemma StartKeeps(tasks: nat)
    ensures Gates.GateInv(Gates.Start(tasks))
  {
    Gates.RunKeeps(tasks, []);
  }

  lemma StepKeepsMemory(policies: string -> BudgetPolicy, sys: System, m: Move)
    requires Gates.GateInv(sys.gates) && HeldUnderGate(sys)
    ensures Gates.GateInv(Next(policies, sys, m).gates) && HeldUnderGate(Next(policies, sys, m))
  {
    hide Gates.GateInv, Admit, Complete, Runs.Step;
    StartKeeps(|sys.gates.tasks|);
    match m.action
    case GateStep(c, action) =>
      if Gates.Enabled(sys.gates, c, action) {
        Gates.StepKeeps(sys.gates, c, action);
      }
    case AdmitStep(c, a) =>
      if Holds(sys, c) && sys.held[c].None? {
        var k := sys.gates.tasks[c].key;
        if Admit(sys.store, a, k, Some(policies(k)), m.at.first).Ok? {
          AdmitDebitsKey(sys.store, a, k, policies(k), m.at.first);
        }
      }
    case _ =>
  }

  lemma {:induction false} InterleaveKeeps(policies: string -> BudgetPolicy, tasks: nat, moves: seq<Move>)
    ensures SystemInv(policies, Interleave(policies, tasks, moves))
  {
    hide Gates.GateInv, Next;
    if moves == [] {
      StartKeeps(tasks);
      var sys := Interleave(policies, tasks, moves);
      forall key
        ensures Refines(policies, sys, key)
      {
      }
    } else {
      var sys := Interleave(policies, tasks, moves[..|moves| - 1]);
      InterleaveKeeps(policies, tasks, moves[..|moves| - 1]);
      StepKeepsMemory(policies, sys, moves[|moves| - 1]);
      var sys' := Next(policies, sys, moves[|moves| - 1]);
      forall key
        ensures Refines(policies, sys', key)
      {
        StepRefines(policies, sys, moves[|moves| - 1], key);
      }
    }
  }

  // ---- The clock ----------------------------------------------------------------

  ghost predicate ClockForward(moves: seq<Move>) {
    && (forall i | 0 <= i < |moves| :: InOrder(moves[i].at))
    && (forall i, j | 0 <= i < j < |moves| :: moves[i].at.third <= moves[j].at.first)
  }

  ghost predicate Until(events: seq<BudgetEvent>, now: nat) {
    Nondecreasing(events) && forall e <- events :: e.now <= now
  }

  /** A step logs at most one entry, at one of its own samples. */
  lemma LogsOnce(policies: string -> BudgetPolicy, sys: System, m: Move)
    requires InOrder(m.at)
    ensures var log := Next(policies, sys, m).log;
            || log == sys.log
            || exists entry: Entry :: log == sys.log + [entry] && m.at.first <= entry.event.now <= m.at.third
  {
    hide Gates.Start, Gates.Step, Admit, Complete, Runs.Step, Gates.Enabled;
  }

  lemma WaitLater(events: seq<BudgetEvent>, before: nat, now: nat)
    requires Until(events, before) && before <= now
    ensures Until(events, now)
  {
  }

  lemma OneMoreEvent(events: seq<BudgetEvent>, e: BudgetEvent, before: nat)
    requires Until(events, before) && before <= e.now
    ensures Until(events + [e], e.now)
  {
  }

  lemma {:induction false} EventsInOrder(policies: string -> BudgetPolicy, tasks: nat, moves: seq<Move>, key: string)
    requires ClockForward(moves)
    ensures Until(EventsOf(Interleave(policies, tasks, moves).log, key),
                  if moves == [] then 0 else moves[|moves| - 1].at.third)
  {
    hide Next, KeptSends, Successes, Acts;
    if moves != [] {
      var earlier := moves[..|moves| - 1];
      EventsInOrder(policies, tasks, earlier, key);
      var sys := Interleave(policies, tasks, earlier);
      var m := moves[|moves| - 1];
      assert Interleave(policies, tasks, moves) == Next(policies, sys, m);
      LogsOnce(policies, sys, m);
      hide EventsOf, Interleave, Until;
      WaitLater(EventsOf(sys.log, key), if earlier == [] then 0 else earlier[|earlier| - 1].at.third, m.at.third);
      var log := Next(policies, sys, m).log;
      if log != sys.log {
        var entry: Entry :| log == sys.log + [entry] && m.at.first <= entry.event.now <= m.at.third;
        Logged(policies, sys.log, entry, key);
        OneMoreEvent(EventsOf(sys.log, key), entry.event, if earlier == [] then 0 else earlier[|earlier| - 1].at.third);
        WaitLater(EventsOf(sys.log, key) + [entry.event], entry.event.now, m.at.third);
      }
    }
  }

  /** Under every interleaving of dispatch tasks, transactions and restarts, the budget row of
      a key is the one a serialised trace of its admissions leaves, and any window no longer
      than the renewal interval that holds no success admits at most `attempts` kept sends. */
  lemma ConcurrentWindowBound(policies: string -> BudgetPolicy, tasks: nat, moves: seq<Move>, key: string,
                              width: nat, start: nat)
    requires ClockForward(moves) && Spaced(policies(key), width)
    requires var events := EventsOf(Interleave(policies, tasks, moves).log, key);
             forall time <- Successes(events) :: !(start <= time < start + width)
    ensures var sys := Interleave(policies, tasks, moves);
            var events := EventsOf(sys.log, key);
            && RowAt(sys.store, key) == Acts(policies(key), events).row
            && Count(KeptSends(events), InWindow(start, width)) <= policies(key).attempts
  {
    hide Gates.GateInv, Interleave, EventsOf, KeptSends, Successes, Acts;
    var sys := Interleave(policies, tasks, moves);
    InterleaveKeeps(policies, tasks, moves);
    assert Refines(policies, sys, key);
    EventsInOrder(policies, tasks, moves, key);
    WindowBound(policies(key), width, EventsOf(sys.log, key), start);
  }

  /** And never early: an admission finds the budget exhausted only after `attempts` kept sends
      since the key's last success, the newest failure of which has not renewed. */
  lemma ConcurrentRefusalOnlyWhenSpent(policies: string -> BudgetPolicy, tasks: nat, moves: seq<Move>, key: string,
                                       now: nat)
    requires ClockForward(moves) && Spaced(policies(key), 0) && policies(key).attempts > 0
    requires moves != [] ==> moves[|moves| - 1].at.third <= now
    requires Debit(policies(key), RowAt(Interleave(policies, tasks, moves).store, key), now).Err?
    ensures var sys := Interleave(policies, tasks, moves);
            var t := Acts(policies(key), EventsOf(sys.log, key));
            && t.sent == KeptSends(EventsOf(sys.log, key))
            && policies(key).attempts <= |t.sent| - t.settled
            && RowAt(sys.store, key).Some? && !Renewed(policies(key), RowAt(sys.store, key).value, now)
  {
    hide Gates.GateInv, Interleave, EventsOf, KeptSends, Successes, Acts;
    var sys := Interleave(policies, tasks, moves);
    InterleaveKeeps(policies, tasks, moves);
    assert Refines(policies, sys, key);
    EventsInOrder(policies, tasks, moves, key);
    var events := EventsOf(sys.log, key);
    assert events != [] ==> events[|events| - 1] in events;
    RefusedOnlyWhenSpent(policies(key), events, now);
  }

  /** Under every interleaving a send undone before it left is as if it had never been admitted:
      deleting the two entries from the key's log gives the same kept sends and the same budget
      at every later time. */
  lemma ConcurrentUndoLeavesNoTrace(policies: string -> BudgetPolicy, tasks: nat, moves: seq<Move>, key: string,
                                    before: seq<BudgetEvent>, sentAt: nat, undoneAt: nat, after: seq<BudgetEvent>,
                                    later: nat)
    requires ClockForward(moves) && (moves != [] ==> moves[|moves| - 1].at.third <= later)
    requires EventsOf(Interleave(policies, tasks, moves).log, key)
          == before + SentAndUndone(sentAt, undoneAt) + after
    ensures var sys := Interleave(policies, tasks, moves);
            var without := Acts(policies(key), before + after);
            && KeptSends(EventsOf(sys.log, key)) == without.sent
            && LiveCohort(policies(key), RowAt(sys.store, key), later)
               == LiveCohort(policies(key), without.row, later)
  {
    hide Gates.GateInv, Interleave, EventsOf, KeptSends, Successes, Acts, LiveCohort;
    var sys := Interleave(policies, tasks, moves);
    var events := EventsOf(sys.log, key);
    InterleaveKeeps(policies, tasks, moves);
    assert Refines(policies, sys, key);
    EventsInOrder(policies, tasks, moves, key);
    assert events[..|before|] == before && events[|before|] == BudgetEvent(sentAt, Send);
    UndoneSendLeavesNoTrace(policies(key), before, sentAt, undoneAt, after);
    assert undoneAt <= later by {
      assert events[|before| + 1].now == undoneAt && events[|before| + 1] in events;
    }
    assert EndOf(after, undoneAt) <= later by {
      assert after != [] ==> events[|events| - 1] == after[|after| - 1] && events[|events| - 1] in events;
    }
  }

  /** Under every interleaving, with a positive interval no admission of a key is refused for its
      budget once that many seconds have passed since each of its sends and completions, and with a
      zero interval none ever is. */
  lemma ConcurrentRenewalAdmits(policies: string -> BudgetPolicy, tasks: nat, moves: seq<Move>, key: string,
                                a: Attempt, now: nat)
    requires policies(key).attempts > 0 && policies(key).renewalSeconds.Some?
    requires policies(key).renewalSeconds.value > 0 ==>
               QuietFor(EventsOf(Interleave(policies, tasks, moves).log, key),
                        policies(key).renewalSeconds.value, now)
    ensures Admit(Interleave(policies, tasks, moves).store, a, key, Some(policies(key)), now)
         != Err(RequestBudgetExhausted)
  {
    hide Gates.GateInv, Interleave, EventsOf, KeptSends, Successes, Acts, Debit, QuietFor;
    var sys := Interleave(policies, tasks, moves);
    InterleaveKeeps(policies, tasks, moves);
    assert Refines(policies, sys, key);
    RenewedBudgetAdmits(policies(key), EventsOf(sys.log, key), now);
    AdmitRefusal(sys.store, a, key, policies(key), now);
  }

  lemma AdmitRefusal(s: Store, a: Attempt, key: string, policy: BudgetPolicy, now: nat)
    ensures Admit(s, a, key, Some(policy), now) == Err(RequestBudgetExhausted) ==>
              Debit(policy, RowAt(s, key), now).Err?
  {
    hide FindLast, StateOf, Debit;
  }
}
