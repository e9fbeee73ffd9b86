/**
 The scheduler as the kernel runs it: a fixed task table updated in place and a
 circular search that returns early. Each method is proved to take the abstract
 state where SchedulerModel says.
 */
module SchedulerMachine {
  import opened Common
  import opened SchedulerModel

  class Scheduler {
    const tasks: array<Task>
    var current: Option<nat>

    ghost function View(): Sched
      reads this, tasks
    {
      Sched(tasks[..], current)
    }

    ghost predicate Valid()
      reads this, tasks
    {
      WellFormed(View())
    }

    constructor (size: nat)
      ensures Valid() && fresh(tasks) && View() == New(size)
    {
      tasks := new Task[size](_ => EMPTY_TASK);
      current := None;
      new;
      assert View() == New(size);
    }

    method Spawn(context: UserContext) returns (r: Result<nat, ScheduleError>)
      requires Valid()
      modifies tasks
      ensures Valid()
      ensures (View(), r) == SchedulerModel.Spawn(old(View()), context)
    {
      var id := 0;
      while id < tasks.Length && tasks[id].state != Unused
        invariant 0 <= id <= tasks.Length
        invariant FirstUnused(tasks[..], 0) == FirstUnused(tasks[..], id)
      {
        id := id + 1;
      }
      if id == tasks.Length {
        return Err(NoTaskSlot);
      }
      tasks[id] := Task(Runnable, context, 0);
      return Ok(id);
    }

    /** The search loop of `schedule`: the first runnable task in the ring from `start`. */
    method Search(start: nat) returns (r: Option<nat>)
      requires tasks.Length > 0 ==> start < tasks.Length
      ensures r == if tasks.Length == 0 then None else Pick(tasks[..], start, 0)
    {
      ghost var table := tasks[..];
      var offset := 0;
      while offset < tasks.Length
        invariant 0 <= offset <= tasks.Length == |table|
        invariant tasks.Length > 0 ==> Pick(table, start, 0) == Pick(table, start, offset)
      {
        RingIsModulo(start, offset, tasks.Length);
        var candidate := (start + offset) % tasks.Length;
        assert table[candidate] == tasks[candidate];
        if tasks[candidate].state == Runnable {
          return Some(candidate);
        }
        offset := offset + 1;
      }
      return None;
    }

    method Schedule() returns (r: Option<Switch>)
      requires Valid()
      modifies this, tasks
      ensures Valid()
      ensures (View(), r) == SchedulerModel.Schedule(old(View()))
    {
      if current.Some? && tasks[current.value].state == Runnable {
        tasks[current.value] := tasks[current.value].(ticks := Tick(tasks[current.value].ticks));
      }
      assert tasks[..] == Charge(old(View()));
      var start := 0;
      if current.Some? {
        RingIsModulo(current.value, 1, tasks.Length);
        start := (current.value + 1) % tasks.Length;
      }
      assert start == Start(old(View()));
      var candidate := Search(start);
      r := if candidate.Some? then Some(Switch(current, candidate.value)) else None;
      current := candidate;
    }

    method SetState(t: nat, state: TaskState) returns (r: Result<(), ScheduleError>)
      requires Valid() && state != Unused
      modifies tasks
      ensures Valid()
      ensures (View(), r) == SchedulerModel.SetState(old(View()), t, state)
    {
      if t >= tasks.Length || tasks[t].state == Unused {
        return Err(BadTask);
      }
      tasks[t] := tasks[t].(state := state);
      return Ok(());
    }

    method Block(t: nat) returns (r: Result<(), ScheduleError>)
      requires Valid()
      modifies tasks
      ensures Valid()
      ensures (View(), r) == SchedulerModel.SetState(old(View()), t, Blocked)
    {
      r := SetState(t, Blocked);
    }

    method Wake(t: nat) returns (r: Result<(), ScheduleError>)
      requires Valid()
      modifies tasks
      ensures Valid()
      ensures (View(), r) == SchedulerModel.SetState(old(View()), t, Runnable)
    {
      r := SetState(t, Runnable);
    }

    method Fault(t: nat) returns (r: Result<(), ScheduleError>)
      requires Valid()
      modifies tasks
      ensures Valid()
      ensures (View(), r) == SchedulerModel.SetState(old(View()), t, Faulted)
    {
      r := SetState(t, Faulted);
    }

    method Context(t: nat) returns (r: Option<UserContext>)
      requires Valid()
      ensures r == SchedulerModel.Context(View(), t)
    {
      if t >= tasks.Length || tasks[t].state == Unused {
        return None;
      }
      return Some(tasks[t].context);
    }

    method SaveContext(t: nat, context: UserContext) returns (r: Result<(), ScheduleError>)
      requires Valid()
      modifies tasks
      ensures Valid()
      ensures (View(), r) == SchedulerModel.SaveContext(old(View()), t, context)
    {
      if t >= tasks.Length || tasks[t].state == Unused {
        return Err(BadTask);
      }
      tasks[t] := tasks[t].(context := context);
      return Ok(());
    }
  }
}
