/**
 The scheduler as a roster that only grows: tasks are numbered in the order they
 are enrolled, the next one is the lowest ready number above the last, or else the
 lowest ready number, and every task has a count of its charges. Every run of the
 scheduler is matched, answer for answer, by a run on the roster.
 */
module SchedulerRoster {
  import opened Common
  import opened SchedulerModel
  import opened SchedulerTheorems

  datatype Entry = Entry(state: TaskState, context: UserContext, charges: nat)

  datatype Roster = Roster(capacity: nat, entries: seq<Entry>, last: Option<nat>)

  function EmptyRoster(capacity: nat): Roster {
    Roster(capacity, [], None)
  }

  /** The lowest ready number from `from` on. */
  function LowestReady(entries: seq<Entry>, from: nat): (r: Option<nat>)
    ensures r.Some? ==> from <= r.value < |entries| && entries[r.value].state == Runnable
    ensures r.Some? ==> forall i :: from <= i < r.value ==> entries[i].state != Runnable
    ensures r.None? ==> forall i :: from <= i < |entries| ==> entries[i].state != Runnable
    decreases |entries| - from
  {
    if from >= |entries| then None
    else if entries[from].state == Runnable then Some(from)
    else LowestReady(entries, from + 1)
  }

  function Next(r: Roster): Option<nat> {
    if r.last.Some? && LowestReady(r.entries, r.last.value + 1).Some? then LowestReady(r.entries, r.last.value + 1)
    else LowestReady(r.entries, 0)
  }

  datatype Answer =
    | Spawned(task: Result<nat, ScheduleError>)
    | Switched(switch: Option<Switch>)
    | Done(result: Result<(), ScheduleError>)

  function Amend(r: Roster, t: nat, state: TaskState): (Roster, Answer) {
    if t < |r.entries| then (r.(entries := r.entries[t := r.entries[t].(state := state)]), Done(Ok(())))
    else (r, Done(Err(BadTask)))
  }

  function Annotate(r: Roster, t: nat, context: UserContext): (Roster, Answer) {
    if t < |r.entries| then (r.(entries := r.entries[t := r.entries[t].(context := context)]), Done(Ok(())))
    else (r, Done(Err(BadTask)))
  }

  /** The last chosen task is charged if it is still ready, and the next one is chosen. */
  function TakeTurn(r: Roster): (Roster, Answer) {
    var next := Next(r);
    var entries :=
      if r.last.Some? && r.last.value < |r.entries| && r.entries[r.last.value].state == Runnable then
        r.entries[r.last.value := r.entries[r.last.value].(charges := r.entries[r.last.value].charges + 1)]
      else r.entries;
    (r.(entries := entries, last := next),
     Switched(if next.None? then None else Some(Switch(r.last, next.value))))
  }

  function Apply(r: Roster, op: Op): (Roster, Answer) {
    match op
    case OpSpawn(context) =>
      if |r.entries| >= r.capacity then (r, Spawned(Err(NoTaskSlot)))
      else (r.(entries := r.entries + [Entry(Runnable, context, 0)]), Spawned(Ok(|r.entries|)))
    case OpSchedule => TakeTurn(r)
    case OpBlock(t) => Amend(r, t, Blocked)
    case OpWake(t) => Amend(r, t, Runnable)
    case OpFault(t) => Amend(r, t, Faulted)
    case OpSave(t, context) => Annotate(r, t, context)
  }

  function ApplyAll(r: Roster, ops: seq<Op>): Roster {
    if ops == [] then r else Apply(ApplyAll(r, ops[..|ops| - 1]), ops[|ops| - 1]).0
  }

  /** The answer the scheduler gives to an operation. */
  function Respond(s: Sched, op: Op): Answer
    requires WellFormed(s)
  {
    match op
    case OpSpawn(context) => Spawned(Spawn(s, context).1)
    case OpSchedule => Switched(Schedule(s).1)
    case OpBlock(t) => Done(SetState(s, t, Blocked).1)
    case OpWake(t) => Done(SetState(s, t, Runnable).1)
    case OpFault(t) => Done(SetState(s, t, Faulted).1)
    case OpSave(t, context) => Done(SaveContext(s, t, context).1)
  }

  // ---------------------------------------------------------------------
  // Representation
  // ---------------------------------------------------------------------

  ghost predicate Records(task: Task, entry: Entry) {
    && entry.state != Unused && task.state == entry.state
    && task.context == entry.context
    && task.ticks == TickAdd(0, entry.charges)
  }

  /** The tasks in use come first. */
  ghost predicate Represents(s: Sched, r: Roster) {
    && r.capacity == |s.tasks| && |r.entries| <= |s.tasks|
    && r.last == s.current
    && (r.last.Some? ==> r.last.value < |r.entries|)
    && (forall t :: 0 <= t < |r.entries| ==> Records(s.tasks[t], r.entries[t]))
    && (forall t :: |r.entries| <= t < |s.tasks| ==> s.tasks[t].state == Unused && s.tasks[t].ticks == 0)
  }

  /** No ready task is nearer in the ring than the next number of the roster. */
  lemma NextIsNearest(r: Roster, start: nat, n: nat, t: nat)
    requires |r.entries| <= n && (r.last.Some? ==> r.last.value < |r.entries|)
    requires start == if r.last.None? || r.last.value + 1 == n then 0 else r.last.value + 1
    requires t < |r.entries| && r.entries[t].state == Runnable
    ensures Next(r).Some? && Next(r).value < |r.entries| && r.entries[Next(r).value].state == Runnable
    ensures 0 <= Gap(start, Next(r).value, n) <= Gap(start, t, n)
  {
  }

  lemma ReadyIsRunnable(s: Sched, r: Roster, t: nat)
    requires Represents(s, r) && t < |s.tasks|
    ensures s.tasks[t].state == Runnable <==> t < |r.entries| && r.entries[t].state == Runnable
  {
    assert t < |r.entries| ==> Records(s.tasks[t], r.entries[t]);
  }

  lemma NextIsReady(r: Roster)
    ensures Next(r).Some? ==> Next(r).value < |r.entries| && r.entries[Next(r).value].state == Runnable
  {
  }

  /** The search of the ring finds the next number of the roster. */
  lemma PickIsNext(s: Sched, r: Roster, tasks: seq<Task>)
    requires WellFormed(s) && Represents(s, r) && |tasks| == |s.tasks| > 0
    requires forall t :: 0 <= t < |tasks| ==> tasks[t].state == s.tasks[t].state
    ensures Pick(tasks, Start(s), 0) == Next(r)
  {
    hide Next, Records;
    var start, n := Start(s), |tasks|;
    var found, next := Pick(tasks, start, 0), Next(r);
    NextIsReady(r);
    if found.Some? {
      ReadyIsRunnable(s, r, found.value);
      NextIsNearest(r, start, n, found.value);
    }
    if next.Some? {
      ReadyIsRunnable(s, r, next.value);
    }
  }

  lemma ScheduleAgrees(s: Sched, r: Roster)
    requires WellFormed(s) && Represents(s, r)
    ensures Represents(Schedule(s).0, TakeTurn(r).0) && Switched(Schedule(s).1) == TakeTurn(r).1
  {
    hide Pick, Next;
    var tasks := Charge(s);
    NextIsReady(r);
    if |tasks| > 0 {
      PickIsNext(s, r, tasks);
    }
    var (r', answer) := TakeTurn(r);
    forall t | 0 <= t < |r'.entries| ensures Records(tasks[t], r'.entries[t]) {
      assert Records(s.tasks[t], r.entries[t]);
    }
  }

  lemma SpawnAgrees(s: Sched, r: Roster, context: UserContext)
    requires WellFormed(s) && Represents(s, r)
    ensures Represents(Spawn(s, context).0, Apply(r, OpSpawn(context)).0)
    ensures Spawned(Spawn(s, context).1) == Apply(r, OpSpawn(context)).1
  {
    var id := FirstUnused(s.tasks, 0);
    assert forall t :: 0 <= t < |r.entries| ==> Records(s.tasks[t], r.entries[t]);
    assert |r.entries| < |s.tasks| ==> s.tasks[|r.entries|].state == Unused;
    assert id == if |r.entries| < |s.tasks| then Some(|r.entries|) else None;
  }

  lemma AmendAgrees(s: Sched, r: Roster, t: nat, state: TaskState)
    requires WellFormed(s) && Represents(s, r) && state != Unused
    ensures Represents(SetState(s, t, state).0, Amend(r, t, state).0)
    ensures Done(SetState(s, t, state).1) == Amend(r, t, state).1
  {
    hide TickAdd;
    assert t < |r.entries| ==> Records(s.tasks[t], r.entries[t]);
  }

  lemma AnnotateAgrees(s: Sched, r: Roster, t: nat, context: UserContext)
    requires WellFormed(s) && Represents(s, r)
    ensures Represents(SaveContext(s, t, context).0, Annotate(r, t, context).0)
    ensures Done(SaveContext(s, t, context).1) == Annotate(r, t, context).1
  {
    hide TickAdd;
    assert t < |r.entries| ==> Records(s.tasks[t], r.entries[t]);
  }

  lemma StepAgrees(s: Sched, r: Roster, op: Op)
    requires WellFormed(s) && Represents(s, r)
    ensures Represents(Step(s, op), Apply(r, op).0) && Respond(s, op) == Apply(r, op).1
  {
    hide Represents, TakeTurn, Schedule, Spawn, SetState, SaveContext, Amend, Annotate;
    match op
    case OpSpawn(context) => SpawnAgrees(s, r, context);
    case OpSchedule => ScheduleAgrees(s, r);
    case OpBlock(t) => AmendAgrees(s, r, t, Blocked);
    case OpWake(t) => AmendAgrees(s, r, t, Runnable);
    case OpFault(t) => AmendAgrees(s, r, t, Faulted);
    case OpSave(t, context) => AnnotateAgrees(s, r, t, context);
  }

  lemma {:induction false} RunAgrees(tasks: nat, ops: seq<Op>)
    ensures Represents(Run(New(tasks), ops), ApplyAll(EmptyRoster(tasks), ops))
  {
    hide Step, Apply;
    if ops != [] {
      RunAgrees(tasks, ops[..|ops| - 1]);
      StepAgrees(Run(New(tasks), ops[..|ops| - 1]), ApplyAll(EmptyRoster(tasks), ops[..|ops| - 1]), ops[|ops| - 1]);
    }
  }

  /**
   After any run, every operation answers as the roster does, and each task shows
   the state, the context and the ticks that the roster has for it.
   */
  lemma RosterAnswers(tasks: nat, ops: seq<Op>, op: Op, t: nat)
    ensures var s, r := Run(New(tasks), ops), ApplyAll(EmptyRoster(tasks), ops);
      && Respond(s, op) == Apply(r, op).1
      && s.current == r.last
      && Context(s, t) == (if t < |r.entries| then Some(r.entries[t].context) else None)
      && (t < |r.entries| ==>
            t < tasks && s.tasks[t].state == r.entries[t].state && s.tasks[t].ticks == TickAdd(0, r.entries[t].charges))
      && (|r.entries| <= t < tasks ==> s.tasks[t].state == Unused && s.tasks[t].ticks == 0)
  {
    hide Step, Apply, Respond;
    var s, r := Run(New(tasks), ops), ApplyAll(EmptyRoster(tasks), ops);
    RunAgrees(tasks, ops);
    StepAgrees(s, r, op);
    assert t < |r.entries| ==> Records(s.tasks[t], r.entries[t]);
  }
}
