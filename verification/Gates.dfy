/** The per-key dispatch gates: a map of weak references to mutexes, kept alive only by the
    tasks that registered for a key. Every step below is atomic; a run is any interleaving. */
module Gates {
  import opened Tables

  /** Where a task is: registered holds one strong reference to its gate, waiting and holding
      a second one (the lock future, then the guard). A task leaves after its future or guard
      is dropped and before its registration is. */
  datatype Phase = Away | Registered | Waiting | Holding | Leaving

  datatype Task = Task(phase: Phase, key: string, gate: nat)

  /** `gates` holds weak references: it does not count. `strong` and `holder` are the reference
      count and the owner of each mutex ever allocated. */
  datatype Gate = Gate(strong: nat, holder: Option<nat>)

  datatype Dispatch = Dispatch(gates: map<string, nat>, mutexes: seq<Gate>, tasks: seq<Task>)

  // ---- Steps --------------------------------------------------------------------

  predicate Upgrades(gates: map<string, nat>, mutexes: seq<Gate>, key: string) {
    key in gates && gates[key] < |mutexes| && mutexes[gates[key]].strong > 0
  }

  /** Lookup under the map mutex: upgrade the weak entry or allocate a new mutex. */
  function Lookup(gates: map<string, nat>, mutexes: seq<Gate>, key: string): (map<string, nat>, seq<Gate>, nat) {
    if Upgrades(gates, mutexes, key) then
      var g := gates[key];
      (gates, mutexes[g := mutexes[g].(strong := mutexes[g].strong + 1)], g)
    else
      (gates[key := |mutexes|], mutexes + [Gate(1, None)], |mutexes|)
  }

  function Released(mutexes: seq<Gate>, g: nat): seq<Gate>
    requires g < |mutexes|
  {
    mutexes[g := mutexes[g].(strong := if mutexes[g].strong == 0 then 0 else mutexes[g].strong - 1)]
  }

  /** Drop of a registration under the map mutex: retire the key with its last reference. */
  function Retire(gates: map<string, nat>, mutexes: seq<Gate>, key: string, g: nat): (map<string, nat>, seq<Gate>)
    requires g < |mutexes|
  {
    var mutexes' := Released(mutexes, g);
    if key in gates && gates[key] < |mutexes'| && mutexes'[gates[key]].strong == 0
    then (gates - {key}, mutexes')
    else (gates, mutexes')
  }

  datatype GateError = StateUnavailable

  /** The shared map and the mutexes it refers to. A poisoned map refuses lookups; cleanup
      still works. */
  class RequestBudgetDispatch {
    var gates: map<string, nat>
    var mutexes: seq<Gate>
    var poisoned: bool

    constructor ()
      ensures gates == map[] && mutexes == [] && !poisoned
    {
      gates, mutexes, poisoned := map[], [], false;
    }

    method LookUp(key: string) returns (r: Result<nat, GateError>)
      modifies this`gates, this`mutexes
      ensures poisoned ==> r == Err(StateUnavailable) && gates == old(gates) && mutexes == old(mutexes)
      ensures !poisoned ==> r.Ok? && (gates, mutexes, r.value) == Lookup(old(gates), old(mutexes), key)
    {
      if poisoned {
        return Err(StateUnavailable);
      }
      if Upgrades(gates, mutexes, key) {
        var g := gates[key];
        mutexes := mutexes[g := mutexes[g].(strong := mutexes[g].strong + 1)];
        return Ok(g);
      }
      var g := |mutexes|;
      mutexes := mutexes + [Gate(1, None)];
      gates := gates[key := g];
      return Ok(g);
    }

    method Drop(key: string, g: nat)
      requires g < |mutexes|
      modifies this`gates, this`mutexes
      ensures (gates, mutexes) == Retire(old(gates), old(mutexes), key, g)
    {
      mutexes := Released(mutexes, g);
      if key in gates && gates[key] < |mutexes| && mutexes[gates[key]].strong == 0 {
        gates := gates - {key};
      }
    }
  }

  datatype Action =
    | Register(key: string)
    | Await
    | Acquire
    | Cancel
    | Unlock
    | Depart

  predicate Enabled(d: Dispatch, c: nat, a: Action) {
    && c < |d.tasks|
    && (d.tasks[c].phase.Away? || d.tasks[c].gate < |d.mutexes|)
    && match a
       case Register(_) => d.tasks[c].phase == Away
       case Await => d.tasks[c].phase == Registered
       case Acquire => d.tasks[c].phase == Waiting && d.mutexes[d.tasks[c].gate].holder.None?
       case Cancel => d.tasks[c].phase == Waiting
       case Unlock => d.tasks[c].phase == Holding
       case Depart => d.tasks[c].phase == Registered || d.tasks[c].phase == Leaving
  }

  function Step(d: Dispatch, c: nat, a: Action): Dispatch
    requires Enabled(d, c, a)
  {
    var t := d.tasks[c];
    var g := t.gate;
    match a
    case Register(key) =>
      var (gates, mutexes, gate) := Lookup(d.gates, d.mutexes, key);
      Dispatch(gates, mutexes, d.tasks[c := Task(Registered, key, gate)])
    case Await =>
      d.(mutexes := d.mutexes[g := d.mutexes[g].(strong := d.mutexes[g].strong + 1)],
         tasks := d.tasks[c := t.(phase := Waiting)])
    case Acquire =>
      d.(mutexes := d.mutexes[g := d.mutexes[g].(holder := Some(c))],
         tasks := d.tasks[c := t.(phase := Holding)])
    case Cancel =>
      d.(mutexes := Released(d.mutexes, g), tasks := d.tasks[c := t.(phase := Leaving)])
    case Unlock =>
      d.(mutexes := Released(d.mutexes[g := d.mutexes[g].(holder := None)], g),
         tasks := d.tasks[c := t.(phase := Leaving)])
    case Depart =>
      var (gates, mutexes) := Retire(d.gates, d.mutexes, t.key, g);
      Dispatch(gates, mutexes, d.tasks[c := t.(phase := Away)])
  }

  // ---- The shared map in use ----------------------------------------------------

  /** The dispatch tasks of one process around the shared map: each registers, waits, holds the
      mutex of its key and departs through it. */
  class DispatchTasks {
    const shared: RequestBudgetDispatch
    var tasks: seq<Task>

    constructor (count: nat)
      ensures fresh(shared) && Valid() && View() == Start(count) && !shared.poisoned
    {
      shared := new RequestBudgetDispatch();
      tasks := seq(count, _ => Task(Away, "", 0));
      new;
      RunKeeps(count, []);
    }

    function View(): Dispatch
      reads this, shared
    {
      Dispatch(shared.gates, shared.mutexes, tasks)
    }

    ghost predicate Valid()
      reads this, shared
    {
      GateInv(View())
    }

    /** Look up the gate of a key, or nothing at all when the map is poisoned. */
    method Enter(c: nat, key: string) returns (r: Result<(), GateError>)
      requires Valid() && Enabled(View(), c, Register(key))
      modifies this, shared
      ensures Valid() && shared.poisoned == old(shared.poisoned)
      ensures r.Err? <==> shared.poisoned
      ensures View() == if r.Ok? then Step(old(View()), c, Register(key)) else old(View())
    {
      StepKeeps(View(), c, Register(key));
      hide GateInv;
      var gate := shared.LookUp(key);
      if gate.Err? {
        return Err(StateUnavailable);
      }
      tasks := tasks[c := Task(Registered, key, gate.value)];
      return Ok(());
    }

    /** Wait for the mutex with a second reference to it. */
    method Wait(c: nat)
      requires Valid() && Enabled(View(), c, Await)
      modifies this, shared
      ensures Valid() && View() == Step(old(View()), c, Await) && shared.poisoned == old(shared.poisoned)
    {
      StepKeeps(View(), c, Await);
      hide GateInv;
      var g := tasks[c].gate;
      shared.mutexes := shared.mutexes[g := shared.mutexes[g].(strong := shared.mutexes[g].strong + 1)];
      tasks := tasks[c := tasks[c].(phase := Waiting)];
    }

    /** Take the free mutex. */
    method Take(c: nat)
      requires Valid() && Enabled(View(), c, Acquire)
      modifies this, shared
      ensures Valid() && View() == Step(old(View()), c, Acquire) && shared.poisoned == old(shared.poisoned)
    {
      StepKeeps(View(), c, Acquire);
      hide GateInv;
      var g := tasks[c].gate;
      shared.mutexes := shared.mutexes[g := shared.mutexes[g].(holder := Some(c))];
      tasks := tasks[c := tasks[c].(phase := Holding)];
    }

    /** Stop waiting and give up the second reference. */
    method GiveUp(c: nat)
      requires Valid() && Enabled(View(), c, Cancel)
      modifies this, shared
      ensures Valid() && View() == Step(old(View()), c, Cancel) && shared.poisoned == old(shared.poisoned)
    {
      StepKeeps(View(), c, Cancel);
      hide GateInv;
      var g := tasks[c].gate;
      shared.mutexes := Released(shared.mutexes, g);
      tasks := tasks[c := tasks[c].(phase := Leaving)];
    }

    /** Free the mutex, then give up the second reference. */
    method LetGo(c: nat)
      requires Valid() && Enabled(View(), c, Unlock)
      modifies this, shared
      ensures Valid() && View() == Step(old(View()), c, Unlock) && shared.poisoned == old(shared.poisoned)
    {
      StepKeeps(View(), c, Unlock);
      hide GateInv;
      var g := tasks[c].gate;
      shared.mutexes := shared.mutexes[g := shared.mutexes[g].(holder := None)];
      shared.mutexes := Released(shared.mutexes, g);
      tasks := tasks[c := tasks[c].(phase := Leaving)];
    }

    /** Drop the registration; a key without one leaves the map. */
    method Leave(c: nat)
      requires Valid() && Enabled(View(), c, Depart)
      modifies this, shared
      ensures Valid() && View() == Step(old(View()), c, Depart) && shared.poisoned == old(shared.poisoned)
      ensures old(tasks)[c].key !in shared.gates
         <==> forall i | i != c :: !IsLive(old(View()), i, old(tasks)[c].key)
    {
      LastOne(View(), c);
      StepKeeps(View(), c, Depart);
      hide GateInv, Counted;
      var t := tasks[c];
      shared.Drop(t.key, t.gate);
      tasks := tasks[c := t.(phase := Away)];
    }
  }

  // ---- The invariant ------------------------------------------------------------

  function Registers(g: nat): Task -> bool {
    (t: Task) => t.phase != Away && t.gate == g
  }

  function Locks(g: nat): Task -> bool {
    (t: Task) => (t.phase == Waiting || t.phase == Holding) && t.gate == g
  }

  /** Each reference count is exactly the references its tasks hold. */
  ghost predicate Counted(d: Dispatch) {
    forall g | 0 <= g < |d.mutexes| ::
      d.mutexes[g].strong == Count(d.tasks, Registers(g)) + Count(d.tasks, Locks(g))
  }

  predicate IsLive(d: Dispatch, c: int, key: string) {
    0 <= c < |d.tasks| && d.tasks[c].phase != Away && d.tasks[c].key == key
  }

  /** Every registration of a key uses the gate the map names for it. */
  ghost predicate Shared(d: Dispatch) {
    forall c | 0 <= c < |d.tasks| && d.tasks[c].phase != Away ::
      var t := d.tasks[c]; t.key in d.gates && d.gates[t.key] == t.gate && t.gate < |d.mutexes|
  }

  ghost predicate Used(d: Dispatch) {
    forall key <- d.gates.Keys :: exists c :: IsLive(d, c, key)
  }

  ghost predicate Injective(d: Dispatch) {
    forall k, k' | k in d.gates && k' in d.gates && d.gates[k] == d.gates[k'] :: k == k'
  }

  ghost predicate Owned(d: Dispatch) {
    && (forall c | 0 <= c < |d.tasks| && d.tasks[c].phase == Holding ::
          d.tasks[c].gate < |d.mutexes| && d.mutexes[d.tasks[c].gate].holder == Some(c))
    && (forall g | 0 <= g < |d.mutexes| && d.mutexes[g].holder.Some? ::
          var c := d.mutexes[g].holder.value;
          c < |d.tasks| && d.tasks[c].phase == Holding && d.tasks[c].gate == g)
  }

  ghost predicate GateInv(d: Dispatch) {
    Counted(d) && Shared(d) && Used(d) && Injective(d) && Owned(d)
  }

  // ---- Every step keeps it ------------------------------------------------------

  function Bit(b: bool): int {
    if b then 1 else 0
  }

  /** One task changed, and each count moved by what that task holds. */
  lemma CountedUpdate(d: Dispatch, c: nat, t: Task, mutexes: seq<Gate>)
    requires Counted(d) && c < |d.tasks| && |mutexes| == |d.mutexes|
    requires forall g | 0 <= g < |mutexes| ::
               mutexes[g].strong == d.mutexes[g].strong
                 + Bit(Registers(g)(t)) - Bit(Registers(g)(d.tasks[c]))
                 + Bit(Locks(g)(t)) - Bit(Locks(g)(d.tasks[c]))
    ensures Counted(d.(mutexes := mutexes, tasks := d.tasks[c := t]))
  {
    forall g | 0 <= g < |mutexes|
      ensures mutexes[g].strong == Count(d.tasks[c := t], Registers(g)) + Count(d.tasks[c := t], Locks(g))
    {
      CountUpdate(d.tasks, c, t, Registers(g));
      CountUpdate(d.tasks, c, t, Locks(g));
    }
  }

  /** A live task's own references are part of its gate's count. */
  lemma LiveIsCounted(d: Dispatch, c: nat)
    requires GateInv(d) && c < |d.tasks| && d.tasks[c].phase != Away
    ensures var t := d.tasks[c];
            && t.gate < |d.mutexes|
            && d.mutexes[t.gate].strong >= 1 + Bit(t.phase == Waiting || t.phase == Holding)
  {
    var t := d.tasks[c];
    assert Registers(t.gate)(t);
    CountZero(d.tasks, Registers(t.gate));
    CountZero(d.tasks, Locks(t.gate));
    if t.phase == Waiting || t.phase == Holding {
      assert Locks(t.gate)(t);
    }
  }

  /** A task that stays live under the same key keeps every key used. */
  lemma StillUsed(d: Dispatch, d': Dispatch, c: nat)
    requires Used(d) && d'.gates == d.gates && c < |d.tasks|
    requires |d'.tasks| == |d.tasks| && d'.tasks == d.tasks[c := d'.tasks[c]]
    requires d'.tasks[c].phase != Away && d'.tasks[c].key == d.tasks[c].key
    ensures Used(d')
  {
    forall key <- d'.gates.Keys
      ensures exists i :: IsLive(d', i, key)
    {
      var i :| IsLive(d, i, key);
      assert IsLive(d', i, key);
    }
  }

  lemma InnerStepOwns(d: Dispatch, c: nat, a: Action)
    requires Owned(d) && Enabled(d, c, a) && !a.Register? && !a.Depart?
    ensures Owned(Step(d, c, a))
  {
  }

  /** Each inner step moves the count of one gate by what its task takes or gives up. */
  lemma InnerStepDelta(d: Dispatch, c: nat, a: Action)
    requires Enabled(d, c, a) && !a.Register? && !a.Depart?
    requires d.mutexes[d.tasks[c].gate].strong >= 1 + Bit(d.tasks[c].phase == Waiting || d.tasks[c].phase == Holding)
    ensures var d' := Step(d, c, a);
            && |d'.mutexes| == |d.mutexes|
            && (forall g | 0 <= g < |d.mutexes| ::
                  d'.mutexes[g].strong == d.mutexes[g].strong
                    + Bit(Registers(g)(d'.tasks[c])) - Bit(Registers(g)(d.tasks[c]))
                    + Bit(Locks(g)(d'.tasks[c])) - Bit(Locks(g)(d.tasks[c])))
  {
  }

  lemma InnerStepShape(d: Dispatch, c: nat, a: Action)
    requires Enabled(d, c, a) && !a.Register? && !a.Depart?
    ensures var d' := Step(d, c, a);
            && d'.gates == d.gates && |d'.mutexes| == |d.mutexes| && |d'.tasks| == |d.tasks|
            && d'.tasks == d.tasks[c := d'.tasks[c]]
            && d'.tasks[c].phase != Away
            && d'.tasks[c].key == d.tasks[c].key && d'.tasks[c].gate == d.tasks[c].gate
            && d' == d.(mutexes := d'.mutexes, tasks := d.tasks[c := d'.tasks[c]])
  {
  }

  /** Waiting, acquiring, cancelling and unlocking change neither the map nor who is live. */
  lemma InnerStepKeeps(d: Dispatch, c: nat, a: Action)
    requires GateInv(d) && Enabled(d, c, a) && !a.Register? && !a.Depart?
    ensures GateInv(Step(d, c, a))
  {
    hide Count, Counted, Owned, Used, Step;
    var d' := Step(d, c, a);
    InnerStepShape(d, c, a);
    LiveIsCounted(d, c);
    InnerStepDelta(d, c, a);
    CountedUpdate(d, c, d'.tasks[c], d'.mutexes);
    StillUsed(d, d', c);
    InnerStepOwns(d, c, a);
  }

  // Registration

  lemma KeyIsCounted(d: Dispatch, key: string)
    requires GateInv(d) && key in d.gates
    ensures Upgrades(d.gates, d.mutexes, key)
  {
    var i :| IsLive(d, i, key);
    LiveIsCounted(d, i);
  }

  lemma RegisterOwns(d: Dispatch, c: nat, key: string)
    requires Owned(d) && Enabled(d, c, Register(key))
    ensures Owned(Step(d, c, Register(key)))
  {
  }

  lemma RegisterShares(d: Dispatch, c: nat, key: string)
    requires Shared(d) && Injective(d) && Used(d) && Enabled(d, c, Register(key))
    requires key in d.gates ==> Upgrades(d.gates, d.mutexes, key)
    ensures Shared(Step(d, c, Register(key))) && Injective(Step(d, c, Register(key)))
  {
    forall k <- d.gates.Keys
      ensures d.gates[k] < |d.mutexes|
    {
      var i :| IsLive(d, i, k);
    }
  }

  lemma RegisterUses(d: Dispatch, c: nat, key: string)
    requires Used(d) && Enabled(d, c, Register(key))
    ensures Used(Step(d, c, Register(key)))
  {
    var d' := Step(d, c, Register(key));
    assert IsLive(d', c, key);
    forall k <- d'.gates.Keys
      ensures exists i :: IsLive(d', i, k)
    {
      if k != key {
        var i :| IsLive(d, i, k);
        assert IsLive(d', i, k);
      }
    }
  }

  /** A fresh mutex is referenced by nobody else. */
  lemma AllocateCounts(d: Dispatch, c: nat, key: string)
    requires Counted(d) && Shared(d) && Enabled(d, c, Register(key)) && key !in d.gates
    ensures Counted(Step(d, c, Register(key)))
  {
    var d' := Step(d, c, Register(key));
    CountZero(d.tasks, Registers(|d.mutexes|));
    CountZero(d.tasks, Locks(|d.mutexes|));
    forall g | 0 <= g < |d'.mutexes|
      ensures d'.mutexes[g].strong == Count(d'.tasks, Registers(g)) + Count(d'.tasks, Locks(g))
    {
      CountUpdate(d.tasks, c, d'.tasks[c], Registers(g));
      CountUpdate(d.tasks, c, d'.tasks[c], Locks(g));
    }
  }

  lemma RegisterKeeps(d: Dispatch, c: nat, key: string)
    requires GateInv(d) && Enabled(d, c, Register(key))
    ensures GateInv(Step(d, c, Register(key)))
  {
    hide Count, Owned, Used, Shared, Injective;
    var d' := Step(d, c, Register(key));
    if key in d.gates {
      KeyIsCounted(d, key);
      CountedUpdate(d, c, d'.tasks[c], d'.mutexes);
    } else {
      AllocateCounts(d, c, key);
    }
    RegisterShares(d, c, key);
    RegisterUses(d, c, key);
    RegisterOwns(d, c, key);
  }

  // Departure

  /** The departing registration sees a zero count exactly when it was the key's last. */
  lemma LastOne(d: Dispatch, c: nat)
    requires GateInv(d) && Enabled(d, c, Depart)
    ensures var d' := Step(d, c, Depart);
            var key := d.tasks[c].key;
            && Counted(d')
            && (key !in d'.gates <==> forall i | i != c :: !IsLive(d, i, key))
  {
    LiveIsCounted(d, c);
    hide Used, Owned;
    var d' := Step(d, c, Depart);
    var t := d.tasks[c];
    CountedUpdate(d, c, d'.tasks[c], d'.mutexes);
    CountZero(d'.tasks, Registers(t.gate));
    CountZero(d'.tasks, Locks(t.gate));
    forall i | 0 <= i < |d.tasks| && i != c
      ensures Registers(t.gate)(d'.tasks[i]) <==> IsLive(d, i, t.key)
    {
    }
    assert !Registers(t.gate)(d'.tasks[c]);
  }

  lemma DepartOwns(d: Dispatch, c: nat)
    requires Owned(d) && Enabled(d, c, Depart)
    ensures Owned(Step(d, c, Depart))
  {
  }

  lemma DepartUses(d: Dispatch, c: nat)
    requires Used(d) && Shared(d) && Enabled(d, c, Depart)
    requires var key := d.tasks[c].key;
             key !in Step(d, c, Depart).gates <==> forall i | i != c :: !IsLive(d, i, key)
    ensures Used(Step(d, c, Depart)) && Shared(Step(d, c, Depart))
  {
    var d' := Step(d, c, Depart);
    forall key <- d'.gates.Keys
      ensures exists i :: IsLive(d', i, key)
    {
      if key == d.tasks[c].key {
        var i :| i != c && IsLive(d, i, key);
        assert IsLive(d', i, key);
      } else {
        var i :| IsLive(d, i, key);
        assert IsLive(d', i, key);
      }
    }
    forall i | 0 <= i < |d'.tasks| && d'.tasks[i].phase != Away
      ensures d'.tasks[i].key in d'.gates
    {
      assert IsLive(d, i, d.tasks[i].key);
    }
  }

  lemma DepartKeeps(d: Dispatch, c: nat)
    requires GateInv(d) && Enabled(d, c, Depart)
    ensures GateInv(Step(d, c, Depart))
  {
    LastOne(d, c);
    hide Counted, Used, Owned, Shared;
    DepartUses(d, c);
    DepartOwns(d, c);
  }

  lemma StepKeeps(d: Dispatch, c: nat, a: Action)
    requires GateInv(d) && Enabled(d, c, a)
    ensures GateInv(Step(d, c, a))
  {
    match a
    case Register(key) => RegisterKeeps(d, c, key);
    case Depart => DepartKeeps(d, c);
    case _ => InnerStepKeeps(d, c, a);
  }

  // ---- Every interleaving -------------------------------------------------------

  datatype Move = Move(task: nat, action: Action)

  function Start(tasks: nat): Dispatch {
    Dispatch(map[], [], seq(tasks, _ => Task(Away, "", 0)))
  }

  /** The dispatch after an interleaving; a move that is not enabled does not happen. */
  function Run(tasks: nat, moves: seq<Move>): Dispatch {
    if moves == [] then Start(tasks)
    else
      var d := Run(tasks, moves[..|moves| - 1]);
      var m := moves[|moves| - 1];
      if Enabled(d, m.task, m.action) then Step(d, m.task, m.action) else d
  }

  lemma {:induction false} RunKeeps(tasks: nat, moves: seq<Move>)
    ensures GateInv(Run(tasks, moves))
  {
    if moves != [] {
      var d := Run(tasks, moves[..|moves| - 1]);
      RunKeeps(tasks, moves[..|moves| - 1]);
      var m := moves[|moves| - 1];
      if Enabled(d, m.task, m.action) {
        StepKeeps(d, m.task, m.action);
      }
    }
  }

  /** Under every interleaving all live registrations of a key share one mutex, at most one of
      them holds it, and the map holds exactly the keys with a live registration. */
  lemma OneHolderPerKey(tasks: nat, moves: seq<Move>)
    ensures var d := Run(tasks, moves);
            && (forall c, c' | 0 <= c < |d.tasks| && 0 <= c' < |d.tasks| && d.tasks[c].key == d.tasks[c'].key
                               && d.tasks[c].phase != Away && d.tasks[c'].phase != Away ::
                  d.tasks[c].gate == d.tasks[c'].gate)
            && (forall c, c' | 0 <= c < |d.tasks| && 0 <= c' < |d.tasks| && d.tasks[c].key == d.tasks[c'].key
                               && d.tasks[c].phase == Holding && d.tasks[c'].phase == Holding ::
                  c == c')
            && d.gates.Keys == (set t <- d.tasks | t.phase != Away :: t.key)
            && ((forall t <- d.tasks :: t.phase == Away) ==> d.gates == map[])
  {
    RunKeeps(tasks, moves);
    hide Count, Counted, Run;
    var d := Run(tasks, moves);
    var live := set t <- d.tasks | t.phase != Away :: t.key;
    forall key
      ensures key in d.gates <==> key in live
    {
      if key in d.gates {
        var i :| IsLive(d, i, key);
        assert d.tasks[i] in d.tasks;
      }
    }
    if forall t <- d.tasks :: t.phase == Away {
      assert live == {};
      assert d.gates == map[];
    }
  }

  // ---- Progress -----------------------------------------------------------------

  ghost predicate HeldByOther(d: Dispatch, key: string) {
    exists i :: 0 <= i < |d.tasks| && d.tasks[i].phase == Holding && d.tasks[i].key == key
  }

  /** Under every interleaving a waiting task can take its mutex exactly when no task of its key holds
      it, and a holder can always let go: no key is ever stuck. */
  lemma WaitsOnlyForHolder(tasks: nat, moves: seq<Move>, c: nat)
    requires c < |Run(tasks, moves).tasks|
    ensures var d := Run(tasks, moves);
            var t := d.tasks[c];
            && (Enabled(d, c, Acquire) <==> t.phase == Waiting && !HeldByOther(d, t.key))
            && (Enabled(d, c, Unlock) <==> t.phase == Holding)
            && (Enabled(d, c, Cancel) <==> t.phase == Waiting)
            && (Enabled(d, c, Await) <==> t.phase == Registered)
            && (Enabled(d, c, Depart) <==> t.phase == Registered || t.phase == Leaving)
  {
    RunKeeps(tasks, moves);
    hide Run, Count, Counted, Used;
    var d := Run(tasks, moves);
    var t := d.tasks[c];
    if t.phase != Away {
      assert d.gates[t.key] == t.gate && t.gate < |d.mutexes|;
      var g := d.mutexes[t.gate];
      if g.holder.Some? {
        var h := g.holder.value;
        assert h < |d.tasks| && d.tasks[h].phase == Holding && d.tasks[h].gate == t.gate;
        assert d.gates[d.tasks[h].key] == d.gates[t.key];
        assert d.tasks[h].key == t.key;
      }
    }
  }
}
