/**
 The round-robin scheduler as a value, with saved task contexts and run-time
 accounting. The class in Scheduler.dfy is proved to compute these functions.
 */
module SchedulerModel {
  import opened Common

  /** The 31 general-purpose registers. */
  type Gprs = s: seq<U64> | |s| == 31 witness seq(31, _ => 0)

  datatype UserContext = UserContext(x: Gprs, sp: U64, elr: U64, spsr: U64, ttbr: U64)

  const EMPTY_CONTEXT := UserContext(seq(31, _ => 0), 0, 0, 0, 0)

  datatype TaskState = Unused | Runnable | Blocked | Faulted

  datatype Task = Task(state: TaskState, context: UserContext, ticks: U64)

  const EMPTY_TASK := Task(Unused, EMPTY_CONTEXT, 0)

  datatype ScheduleError = NoTaskSlot | BadTask | NotRunnable

  datatype Switch = Switch(previous: Option<nat>, next: nat)

  datatype Sched = Sched(tasks: seq<Task>, current: Option<nat>)

  function New(tasks: nat): Sched {
    Sched(seq(tasks, _ => EMPTY_TASK), None)
  }

  /** The current task exists and is in use. */
  predicate WellFormed(s: Sched) {
    s.current.Some? ==> s.current.value < |s.tasks| && s.tasks[s.current.value].state != Unused
  }

  // ---------------------------------------------------------------------
  // Operations
  // ---------------------------------------------------------------------

  function FirstUnused(tasks: seq<Task>, from: nat): (r: Option<nat>)
    requires from <= |tasks|
    ensures r.None? ==> forall i :: from <= i < |tasks| ==> tasks[i].state != Unused
    ensures r.Some? ==> from <= r.value < |tasks| && tasks[r.value].state == Unused
    ensures r.Some? ==> forall i :: from <= i < r.value ==> tasks[i].state != Unused
    decreases |tasks| - from
  {
    if from == |tasks| then None
    else if tasks[from].state == Unused then Some(from)
    else FirstUnused(tasks, from + 1)
  }

  function Spawn(s: Sched, context: UserContext): (Sched, Result<nat, ScheduleError>) {
    var id := FirstUnused(s.tasks, 0);
    if id.None? then (s, Err(NoTaskSlot))
    else (s.(tasks := s.tasks[id.value := Task(Runnable, context, 0)]), Ok(id.value))
  }

  /** How many places after `from` the ring position `i` lies. */
  function Gap(from: nat, i: nat, n: nat): int {
    if i >= from then i - from else i - from + n
  }

  /** Where the search for the next task begins. */
  function Start(s: Sched): nat
    requires WellFormed(s)
  {
    if s.current.None? then 0
    else if s.current.value + 1 == |s.tasks| then 0
    else s.current.value + 1
  }

  /** The runnable task that comes first in the ring from `start`, skipping `k` places. */
  function Pick(tasks: seq<Task>, start: nat, k: nat): (r: Option<nat>)
    requires start < |tasks| && k <= |tasks|
    ensures r.Some? ==> r.value < |tasks| && tasks[r.value].state == Runnable && Gap(start, r.value, |tasks|) >= k
    ensures r.Some? ==> forall j :: 0 <= j < |tasks| && tasks[j].state == Runnable && Gap(start, j, |tasks|) >= k ==>
              Gap(start, r.value, |tasks|) <= Gap(start, j, |tasks|)
    ensures r.None? ==> forall j :: 0 <= j < |tasks| && tasks[j].state == Runnable ==> Gap(start, j, |tasks|) < k
    decreases |tasks| - k
  {
    if k == |tasks| then None else
    var candidate := Ring(start, k, |tasks|);
    assert Gap(start, candidate, |tasks|) == k;
    assert forall j :: 0 <= j < |tasks| && Gap(start, j, |tasks|) == k ==> j == candidate;
    if tasks[candidate].state == Runnable then Some(candidate) else Pick(tasks, start, k + 1)
  }

  /** One tick for the current task, when it is runnable. */
  function Charge(s: Sched): seq<Task>
    requires WellFormed(s)
  {
    if Busy(s) then
      var c := s.current.value;
      s.tasks[c := s.tasks[c].(ticks := Tick(s.tasks[c].ticks))]
    else s.tasks
  }

  predicate Busy(s: Sched)
    requires WellFormed(s)
  {
    s.current.Some? && s.tasks[s.current.value].state == Runnable
  }

  function Schedule(s: Sched): (Sched, Option<Switch>)
    requires WellFormed(s)
  {
    var tasks := Charge(s);
    var next := if |tasks| == 0 then None else Pick(tasks, Start(s), 0);
    (Sched(tasks, next), if next.None? then None else Some(Switch(s.current, next.value)))
  }

  function SetState(s: Sched, t: nat, state: TaskState): (Sched, Result<(), ScheduleError>) {
    if t >= |s.tasks| || s.tasks[t].state == Unused then (s, Err(BadTask))
    else (s.(tasks := s.tasks[t := s.tasks[t].(state := state)]), Ok(()))
  }

  function SaveContext(s: Sched, t: nat, context: UserContext): (Sched, Result<(), ScheduleError>) {
    if t >= |s.tasks| || s.tasks[t].state == Unused then (s, Err(BadTask))
    else (s.(tasks := s.tasks[t := s.tasks[t].(context := context)]), Ok(()))
  }

  function Context(s: Sched, t: nat): Option<UserContext> {
    if t >= |s.tasks| || s.tasks[t].state == Unused then None else Some(s.tasks[t].context)
  }

  // ---------------------------------------------------------------------
  // Runs
  // ---------------------------------------------------------------------

  datatype Op =
    | OpSpawn(context: UserContext)
    | OpSchedule
    | OpBlock(task: nat)
    | OpWake(task: nat)
    | OpFault(task: nat)
    | OpSave(task: nat, context: UserContext)

  function Step(s: Sched, op: Op): (r: Sched)
    requires WellFormed(s)
    ensures WellFormed(r) && |r.tasks| == |s.tasks|
  {
    match op
    case OpSpawn(context) => Spawn(s, context).0
    case OpSchedule => Schedule(s).0
    case OpBlock(t) => SetState(s, t, Blocked).0
    case OpWake(t) => SetState(s, t, Runnable).0
    case OpFault(t) => SetState(s, t, Faulted).0
    case OpSave(t, context) => SaveContext(s, t, context).0
  }

  function Run(s: Sched, ops: seq<Op>): (r: Sched)
    requires WellFormed(s)
    ensures WellFormed(r) && |r.tasks| == |s.tasks|
  {
    if ops == [] then s else Step(Run(s, ops[..|ops| - 1]), ops[|ops| - 1])
  }
}
