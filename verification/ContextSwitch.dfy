/**
 Preemption: one register file shared by all tasks, with the contexts of the
 others saved in the scheduler, behaves as if every task had a CPU of its own.
 */
module ContextSwitch {
  import opened Common
  import opened SchedulerModel
  import opened SchedulerMachine
  import opened SchedulerTheorems

  // ---------------------------------------------------------------------
  // The shared machine
  // ---------------------------------------------------------------------

  /** `regs` is what the hardware returns to user mode with. */
  datatype Machine = Machine(sched: Sched, regs: UserContext)

  datatype Event =
    | User(regs: UserContext)           // the running program leaves these register values
    | Timer                             // a timer interrupt
    | SpawnTask(context: UserContext)
    | BlockTask(task: nat)
    | WakeTask(task: nat)
    | FaultTask(task: nat)

  /** The timer interrupt: save, schedule, restore. */
  function TimerSwitch(m: Machine): (Machine, Option<(nat, nat)>)
    requires WellFormed(m.sched)
  {
    if m.sched.current.None? then (m, None) else
    var previous := m.sched.current.value;
    var saved := SaveContext(m.sched, previous, m.regs).0;
    var (sched, switch) := Schedule(saved);
    if switch.None? then (m.(sched := sched), None) else
    var next := switch.value.next;
    (Machine(sched, sched.tasks[next].context), Some((previous, next)))
  }

  function Step(m: Machine, ev: Event): (r: Machine)
    requires WellFormed(m.sched)
    ensures WellFormed(r.sched) && |r.sched.tasks| == |m.sched.tasks|
  {
    match ev
    case User(regs) => m.(regs := regs)
    case Timer => TimerSwitch(m).0
    case SpawnTask(context) => m.(sched := Spawn(m.sched, context).0)
    case BlockTask(t) => m.(sched := SetState(m.sched, t, Blocked).0)
    case WakeTask(t) => m.(sched := SetState(m.sched, t, Runnable).0)
    case FaultTask(t) => m.(sched := SetState(m.sched, t, Faulted).0)
  }

  function Run(m: Machine, evs: seq<Event>): (r: Machine)
    requires WellFormed(m.sched)
    ensures WellFormed(r.sched) && |r.sched.tasks| == |m.sched.tasks|
  {
    if evs == [] then m else Step(Run(m, evs[..|evs| - 1]), evs[|evs| - 1])
  }

  // ---------------------------------------------------------------------
  // Private CPUs
  // ---------------------------------------------------------------------

  /** A step of the machine in which every task in use has registers of its own. */
  datatype PrivateStep =
    | Quiet
    | Compute(task: nat, regs: UserContext)
    | Boot(context: UserContext)

  function FirstFree(cpus: seq<Option<UserContext>>, from: nat): (r: Option<nat>)
    requires from <= |cpus|
    ensures r.None? ==> forall i :: from <= i < |cpus| ==> cpus[i].Some?
    ensures r.Some? ==> from <= r.value < |cpus| && cpus[r.value].None?
    ensures r.Some? ==> forall i :: from <= i < r.value ==> cpus[i].Some?
    decreases |cpus| - from
  {
    if from == |cpus| then None else if cpus[from].None? then Some(from) else FirstFree(cpus, from + 1)
  }

  function PrivateApply(cpus: seq<Option<UserContext>>, st: PrivateStep): (r: seq<Option<UserContext>>)
    ensures |r| == |cpus|
  {
    match st
    case Quiet => cpus
    case Compute(t, regs) => if t < |cpus| && cpus[t].Some? then cpus[t := Some(regs)] else cpus
    case Boot(context) =>
      var free := FirstFree(cpus, 0);
      if free.None? then cpus else cpus[free.value := Some(context)]
  }

  function PrivateRun(cpus: seq<Option<UserContext>>, sts: seq<PrivateStep>): seq<Option<UserContext>> {
    if sts == [] then cpus else PrivateApply(PrivateRun(cpus, sts[..|sts| - 1]), sts[|sts| - 1])
  }

  // ---------------------------------------------------------------------
  // Refinement
  // ---------------------------------------------------------------------

  /** The context task `t` has: in the register file if it is current, saved otherwise. */
  function CpuOf(m: Machine, t: nat): Option<UserContext>
    requires t < |m.sched.tasks|
  {
    if m.sched.tasks[t].state == Unused then None
    else if m.sched.current == Some(t) then Some(m.regs)
    else Some(m.sched.tasks[t].context)
  }

  function Cpus(m: Machine): (r: seq<Option<UserContext>>)
    ensures |r| == |m.sched.tasks|
    ensures forall t :: 0 <= t < |r| ==> r[t] == CpuOf(m, t)
  {
    seq(|m.sched.tasks|, t requires 0 <= t < |m.sched.tasks| => CpuOf(m, t))
  }

  /** What the event is for the private CPUs: only user code and the birth of a task are visible. */
  function Label(m: Machine, ev: Event): PrivateStep {
    match ev
    case User(regs) => if m.sched.current.Some? then Compute(m.sched.current.value, regs) else Quiet
    case SpawnTask(context) => Boot(context)
    case _ => Quiet
  }

  function Labels(m: Machine, evs: seq<Event>): seq<PrivateStep>
    requires WellFormed(m.sched)
  {
    if evs == [] then [] else
    Labels(m, evs[..|evs| - 1]) + [Label(Run(m, evs[..|evs| - 1]), evs[|evs| - 1])]
  }

  lemma TimerKeepsContext(m: Machine, t: nat)
    requires WellFormed(m.sched) && t < |m.sched.tasks|
    ensures |TimerSwitch(m).0.sched.tasks| == |m.sched.tasks|
    ensures CpuOf(TimerSwitch(m).0, t) == CpuOf(m, t)
  {
  }

  /** A timer switch changes no task's context, even when nothing is left to run. */
  lemma TimerIsQuiet(m: Machine)
    requires WellFormed(m.sched)
    ensures Cpus(TimerSwitch(m).0) == Cpus(m)
  {
    hide TimerSwitch, CpuOf;
    var m' := TimerSwitch(m).0;
    TimerSize(m);
    forall t | 0 <= t < |m.sched.tasks| ensures Cpus(m')[t] == Cpus(m)[t] {
      TimerKeepsContext(m, t);
    }
  }

  lemma TimerSize(m: Machine)
    requires WellFormed(m.sched)
    ensures |TimerSwitch(m).0.sched.tasks| == |m.sched.tasks|
  {
  }

  lemma SpawnIsBoot(m: Machine, context: UserContext)
    requires WellFormed(m.sched)
    ensures Cpus(Step(m, SpawnTask(context))) == PrivateApply(Cpus(m), Boot(context))
  {
    var id := FirstUnused(m.sched.tasks, 0);
    var free := FirstFree(Cpus(m), 0);
    if id.Some? {
      assert Cpus(m)[id.value].None?;
    }
    if free.Some? {
      assert m.sched.tasks[free.value].state == Unused;
    }
  }

  lemma StepRefines(m: Machine, ev: Event)
    requires WellFormed(m.sched)
    ensures Cpus(Step(m, ev)) == PrivateApply(Cpus(m), Label(m, ev))
  {
    match ev
    case Timer => TimerIsQuiet(m);
    case SpawnTask(context) => SpawnIsBoot(m, context);
    case _ =>
  }

  /** Every run of the shared machine is a run of the machine with private CPUs. */
  lemma {:induction false} RefinesPrivateCpus(m: Machine, evs: seq<Event>)
    requires WellFormed(m.sched)
    ensures Cpus(Run(m, evs)) == PrivateRun(Cpus(m), Labels(m, evs))
  {
    if evs != [] {
      hide Step, PrivateApply, Label;
      var before := evs[..|evs| - 1];
      RefinesPrivateCpus(m, before);
      StepRefines(Run(m, before), evs[|evs| - 1]);
      var sts := Labels(m, evs);
      assert sts[..|sts| - 1] == Labels(m, before);
    }
  }

  /** No user code of `t` runs during the events. */
  predicate Preempted(m: Machine, evs: seq<Event>, t: nat)
    requires WellFormed(m.sched)
    decreases |evs|
  {
    evs == [] ||
    (var before := evs[..|evs| - 1];
     Preempted(m, before, t) && (evs[|evs| - 1].User? ==> Run(m, before).sched.current != Some(t)))
  }

  lemma {:induction false} ContextKept(m: Machine, evs: seq<Event>, t: nat)
    requires WellFormed(m.sched) && t < |m.sched.tasks| && m.sched.tasks[t].state != Unused
    requires Preempted(m, evs, t)
    ensures Run(m, evs).sched.tasks[t].state != Unused && CpuOf(Run(m, evs), t) == CpuOf(m, t)
  {
    if evs != [] {
      var before := evs[..|evs| - 1];
      ContextKept(m, before, t);
      var mid := Run(m, before);
      StepRefines(mid, evs[|evs| - 1]);
      assert Cpus(mid)[t] == CpuOf(mid, t);
      assert Cpus(Run(m, evs))[t] == CpuOf(Run(m, evs), t);
    }
  }

  /**
   A task that is interrupted and later runs again finds all 31 registers, SP,
   ELR, SPSR and TTBR0 as they were, whatever the other tasks did meanwhile.
   */
  lemma ResumesWhereInterrupted(m: Machine, evs: seq<Event>, t: nat)
    requires WellFormed(m.sched) && m.sched.current == Some(t)
    ensures Preempted(m, evs, t) && Run(m, evs).sched.current == Some(t) ==> Run(m, evs).regs == m.regs
  {
    if Preempted(m, evs, t) {
      ContextKept(m, evs, t);
    }
  }

  predicate SomeRunnable(s: Sched) {
    exists t :: 0 <= t < |s.tasks| && s.tasks[t].state == Runnable
  }

  /**
   The switch happens exactly when some task is current and some task is runnable,
   and its answer is the task that was current and the task that now is.
   */
  lemma SwitchesExactly(m: Machine)
    requires WellFormed(m.sched)
    ensures TimerSwitch(m).1.Some? <==> m.sched.current.Some? && SomeRunnable(m.sched)
    ensures TimerSwitch(m).1.Some? ==> m.sched.current == Some(TimerSwitch(m).1.value.0)
    ensures TimerSwitch(m).1.Some? ==> TimerSwitch(m).0.sched.current == Some(TimerSwitch(m).1.value.1)
    ensures TimerSwitch(m).1.None? ==> TimerSwitch(m).0.sched.current.None?
  {
    if m.sched.current.Some? {
      var saved := SaveContext(m.sched, m.sched.current.value, m.regs).0;
      var tasks := Charge(saved);
      assert forall t :: 0 <= t < |tasks| ==> tasks[t].state == m.sched.tasks[t].state;
      var next := Pick(tasks, Start(saved), 0);
      if next.None? {
        forall t | 0 <= t < |m.sched.tasks| ensures m.sched.tasks[t].state != Runnable {
          assert Gap(Start(saved), t, |tasks|) >= 0;
        }
      }
    }
  }

  // ---------------------------------------------------------------------
  // The machine drives the scheduler
  // ---------------------------------------------------------------------

  /** The scheduler calls that an event makes. */
  function Calls(m: Machine, ev: Event): seq<Op> {
    match ev
    case User(_) => []
    case Timer => if m.sched.current.None? then [] else [OpSave(m.sched.current.value, m.regs), OpSchedule]
    case SpawnTask(context) => [OpSpawn(context)]
    case BlockTask(t) => [OpBlock(t)]
    case WakeTask(t) => [OpWake(t)]
    case FaultTask(t) => [OpFault(t)]
  }

  function AllCalls(m: Machine, evs: seq<Event>): seq<Op>
    requires WellFormed(m.sched)
  {
    if evs == [] then [] else
    AllCalls(m, evs[..|evs| - 1]) + Calls(Run(m, evs[..|evs| - 1]), evs[|evs| - 1])
  }

  lemma OneCall(s: Sched, a: Op)
    requires WellFormed(s)
    ensures SchedulerModel.Run(s, [a]) == SchedulerModel.Step(s, a)
  {
    hide SchedulerModel.Step;
    SchedulerTheorems.RunNothing(s);
    SchedulerTheorems.RunSnoc(s, [], a);
    assert [] + [a] == [a];
  }

  lemma TwoCalls(s: Sched, a: Op, b: Op)
    requires WellFormed(s)
    ensures SchedulerModel.Run(s, [a, b]) == SchedulerModel.Step(SchedulerModel.Step(s, a), b)
  {
    hide SchedulerModel.Step, SchedulerModel.Run;
    OneCall(s, a);
    SchedulerTheorems.RunSnoc(s, [a], b);
    assert [a] + [b] == [a, b];
  }

  lemma CallsMakeStep(m: Machine, ev: Event)
    requires WellFormed(m.sched)
    ensures SchedulerModel.Run(m.sched, Calls(m, ev)) == Step(m, ev).sched
  {
    hide SchedulerModel.Run, Schedule, Spawn, SetState;
    SchedulerTheorems.RunNothing(m.sched);
    if Calls(m, ev) != [] {
      OneCall(m.sched, Calls(m, ev)[0]);
      if ev.Timer? {
        TwoCalls(m.sched, Calls(m, ev)[0], OpSchedule);
      }
    }
  }

  lemma {:induction false} RunConcat(s: Sched, a: seq<Op>, b: seq<Op>)
    requires WellFormed(s)
    ensures SchedulerModel.Run(s, a + b) == SchedulerModel.Run(SchedulerModel.Run(s, a), b)
  {
    hide SchedulerModel.Step;
    if b == [] {
      assert a + b == a;
    } else {
      var before := b[..|b| - 1];
      RunConcat(s, a, before);
      assert (a + b)[..|a + b| - 1] == a + before;
    }
  }

  /** The scheduler inside the machine is the scheduler run on the calls of the events. */
  lemma {:induction false} MachineRunsScheduler(m: Machine, evs: seq<Event>)
    requires WellFormed(m.sched)
    ensures Run(m, evs).sched == SchedulerModel.Run(m.sched, AllCalls(m, evs))
  {
    hide SchedulerModel.Run, Step, Calls;
    if evs == [] {
      SchedulerTheorems.RunNothing(m.sched);
    } else {
      var before, ev := evs[..|evs| - 1], evs[|evs| - 1];
      MachineRunsScheduler(m, before);
      CallsMakeStep(Run(m, before), ev);
      RunConcat(m.sched, AllCalls(m, before), Calls(Run(m, before), ev));
    }
  }

  // ---------------------------------------------------------------------
  // Whose user steps are they
  // ---------------------------------------------------------------------

  /** The tasks that the timer switches of the run resumed, in order. */
  function Resumed(m: Machine, evs: seq<Event>): seq<nat>
    requires WellFormed(m.sched)
  {
    if evs == [] then [] else
    var before := evs[..|evs| - 1];
    var switch := TimerSwitch(Run(m, before)).1;
    if evs[|evs| - 1].Timer? && switch.Some? then Resumed(m, before) + [switch.value.1] else Resumed(m, before)
  }

  /** The task whose program the hardware is executing: the last one resumed, or the one running at the start. */
  function Executing(m: Machine, evs: seq<Event>): nat
    requires WellFormed(m.sched) && m.sched.current.Some?
  {
    var rs := Resumed(m, evs);
    if rs == [] then m.sched.current.value else rs[|rs| - 1]
  }

  /** A timer interrupt that finds no runnable task: the interrupted program simply continues. */
  predicate Strands(m: Machine, ev: Event) {
    ev.Timer? && !SomeRunnable(m.sched)
  }

  predicate StrandsAt(m: Machine, evs: seq<Event>, j: nat)
    requires WellFormed(m.sched) && j < |evs|
  {
    Strands(Run(m, evs[..j]), evs[j])
  }

  /** Some timer interrupt of the run found no runnable task. */
  predicate Stranded(m: Machine, evs: seq<Event>)
    requires WellFormed(m.sched)
  {
    exists j :: 0 <= j < |evs| && StrandsAt(m, evs, j)
  }

  lemma StrandsAtPrefix(m: Machine, evs: seq<Event>, j: nat)
    requires WellFormed(m.sched) && j + 1 < |evs|
    ensures StrandsAt(m, evs[..|evs| - 1], j) == StrandsAt(m, evs, j)
  {
    hide Run, Strands;
    assert evs[..|evs| - 1][..j] == evs[..j];
  }

  lemma LastStrands(m: Machine, evs: seq<Event>)
    requires WellFormed(m.sched) && evs != []
    ensures StrandsAt(m, evs, |evs| - 1) == Strands(Run(m, evs[..|evs| - 1]), evs[|evs| - 1])
  {
  }

  lemma StrandedSnoc(m: Machine, evs: seq<Event>)
    requires WellFormed(m.sched) && evs != []
    ensures Stranded(m, evs) <==>
      Stranded(m, evs[..|evs| - 1]) || Strands(Run(m, evs[..|evs| - 1]), evs[|evs| - 1])
  {
    hide StrandsAt, Run, Strands;
    LastStrands(m, evs);
    var before := evs[..|evs| - 1];
    forall j | 0 <= j < |before| ensures StrandsAt(m, before, j) == StrandsAt(m, evs, j) {
      StrandsAtPrefix(m, evs, j);
    }
  }

  lemma StepCurrent(m: Machine, ev: Event)
    requires WellFormed(m.sched)
    ensures !ev.Timer? || m.sched.current.None? ==> Step(m, ev).sched.current == m.sched.current
  {
  }

  /** The scheduler's current task is the executing one until a timer finds nothing runnable, and none ever after. */
  lemma {:induction false} CurrentIsExecuting(m: Machine, evs: seq<Event>)
    requires WellFormed(m.sched) && m.sched.current.Some?
    ensures Run(m, evs).sched.current == if Stranded(m, evs) then None else Some(Executing(m, evs))
  {
    hide Stranded, TimerSwitch;
    if evs == [] {
      NotYetStranded(m);
    } else {
      var before := evs[..|evs| - 1];
      var mid := Run(m, before);
      CurrentIsExecuting(m, before);
      StrandedSnoc(m, evs);
      StepCurrent(mid, evs[|evs| - 1]);
      SwitchesExactly(mid);
    }
  }

  lemma NotYetStranded(m: Machine)
    requires WellFormed(m.sched)
    ensures !Stranded(m, [])
  {
  }

  /** As `Label`, but every user step belongs to the task whose program executes it. */
  function OwnedLabel(m: Machine, before: seq<Event>, ev: Event): PrivateStep
    requires WellFormed(m.sched) && m.sched.current.Some?
  {
    match ev
    case User(regs) => Compute(Executing(m, before), regs)
    case SpawnTask(context) => Boot(context)
    case _ => Quiet
  }

  function OwnedLabels(m: Machine, evs: seq<Event>): seq<PrivateStep>
    requires WellFormed(m.sched) && m.sched.current.Some?
  {
    if evs == [] then [] else
    OwnedLabels(m, evs[..|evs| - 1]) + [OwnedLabel(m, evs[..|evs| - 1], evs[|evs| - 1])]
  }

  /** User code runs after a timer interrupt that found no runnable task. */
  predicate RunsStranded(m: Machine, evs: seq<Event>)
    requires WellFormed(m.sched)
  {
    exists k :: 0 <= k < |evs| && evs[k].User? && Stranded(m, evs[..k])
  }

  lemma RunsStrandedSnoc(m: Machine, evs: seq<Event>)
    requires WellFormed(m.sched) && evs != []
    ensures RunsStranded(m, evs) <==>
      RunsStranded(m, evs[..|evs| - 1]) || (evs[|evs| - 1].User? && Stranded(m, evs[..|evs| - 1]))
  {
    hide Stranded;
    var before := evs[..|evs| - 1];
    forall k | 0 <= k < |before| ensures Stranded(m, before[..k]) == Stranded(m, evs[..k]) {
      assert before[..k] == evs[..k];
    }
    if RunsStranded(m, before) {
      var k :| 0 <= k < |before| && before[k].User? && Stranded(m, before[..k]);
      assert evs[k].User? && Stranded(m, evs[..k]);
    }
    if RunsStranded(m, evs) {
      var k :| 0 <= k < |evs| && evs[k].User? && Stranded(m, evs[..k]);
      assert k < |before| ==> before[k].User? && Stranded(m, before[..k]);
    }
  }

  lemma LabelOwned(m: Machine, before: seq<Event>, ev: Event)
    requires WellFormed(m.sched) && m.sched.current.Some?
    ensures Label(Run(m, before), ev) == OwnedLabel(m, before, ev) <==> !(ev.User? && Stranded(m, before))
  {
    hide Stranded, Executing, Run;
    CurrentIsExecuting(m, before);
  }

  /**
   Every user step of a run is a step of the private CPU of the task whose program
   executes it if and only if no user code runs after a timer interrupt that found
   no runnable task.
   */
  lemma {:induction false} UserStepsOwnedExactly(m: Machine, evs: seq<Event>)
    requires WellFormed(m.sched) && m.sched.current.Some?
    ensures Labels(m, evs) == OwnedLabels(m, evs) <==> !RunsStranded(m, evs)
    ensures |Labels(m, evs)| == |evs| == |OwnedLabels(m, evs)|
  {
    hide Stranded, RunsStranded, Label, OwnedLabel, Run;
    if evs == [] {
      NobodyRanStranded(m);
    } else {
      var before, ev := evs[..|evs| - 1], evs[|evs| - 1];
      UserStepsOwnedExactly(m, before);
      RunsStrandedSnoc(m, evs);
      LabelOwned(m, before, ev);
      SameSnoc(Labels(m, before), OwnedLabels(m, before), Label(Run(m, before), ev), OwnedLabel(m, before, ev));
    }
  }

  lemma NobodyRanStranded(m: Machine)
    requires WellFormed(m.sched)
    ensures !RunsStranded(m, [])
  {
  }

  lemma SameSnoc<T>(a: seq<T>, b: seq<T>, x: T, y: T)
    requires |a| == |b|
    ensures a + [x] == b + [y] <==> a == b && x == y
  {
    if a + [x] == b + [y] {
      assert a == (a + [x])[..|a|] && b == (b + [y])[..|b|];
      assert x == (a + [x])[|a|] && y == (b + [y])[|b|];
    }
  }

  /** Unless user code runs stranded, every user step is a step of its own task's private CPU. */
  lemma RefinesOwnedCpus(m: Machine, evs: seq<Event>)
    requires WellFormed(m.sched) && m.sched.current.Some? && !RunsStranded(m, evs)
    ensures Cpus(Run(m, evs)) == PrivateRun(Cpus(m), OwnedLabels(m, evs))
  {
    hide Run, Cpus, PrivateRun, RunsStranded, Labels, OwnedLabels;
    UserStepsOwnedExactly(m, evs);
    RefinesPrivateCpus(m, evs);
  }

  lemma {:induction false} IdleStays(m: Machine, evs: seq<Event>)
    requires WellFormed(m.sched) && m.sched.current.None?
    ensures Run(m, evs).sched.current.None? && Resumed(m, evs) == []
  {
    if evs != [] {
      IdleStays(m, evs[..|evs| - 1]);
      StepCurrent(Run(m, evs[..|evs| - 1]), evs[|evs| - 1]);
    }
  }

  /** Once no task is current none ever is: no task is resumed again, even if one is woken, and no context changes. */
  lemma {:induction false} IdleForEver(m: Machine, evs: seq<Event>, t: nat)
    requires WellFormed(m.sched) && m.sched.current.None?
    ensures Run(m, evs).sched.current.None? && Resumed(m, evs) == []
    ensures t < |m.sched.tasks| && m.sched.tasks[t].state != Unused ==> CpuOf(Run(m, evs), t) == CpuOf(m, t)
  {
    IdleStays(m, evs);
    AlwaysPreempted(m, evs, t);
    if t < |m.sched.tasks| && m.sched.tasks[t].state != Unused {
      ContextKept(m, evs, t);
    }
  }

  lemma {:induction false} AlwaysPreempted(m: Machine, evs: seq<Event>, t: nat)
    requires WellFormed(m.sched) && m.sched.current.None?
    ensures Preempted(m, evs, t)
  {
    if evs != [] {
      AlwaysPreempted(m, evs[..|evs| - 1], t);
      IdleStays(m, evs[..|evs| - 1]);
    }
  }

  /** The scheduler at boot: two runnable tasks, the first of them current. */
  function BootSched(a: UserContext, b: UserContext): Sched {
    Sched([Task(Runnable, a, 0), Task(Runnable, b, 0)], Some(0))
  }

  lemma RunSnoc(m: Machine, evs: seq<Event>, ev: Event)
    requires WellFormed(m.sched)
    ensures Run(m, evs + [ev]) == Step(Run(m, evs), ev)
  {
    hide Step;
    assert (evs + [ev])[..|evs + [ev]| - 1] == evs;
  }

  lemma RunNothing(m: Machine)
    requires WellFormed(m.sched)
    ensures Run(m, []) == m
  {
  }

  lemma BlockFirst(a: UserContext, b: UserContext, r: UserContext)
    ensures Step(Machine(BootSched(a, b), r), BlockTask(0)) ==
      Machine(Sched([Task(Blocked, a, 0), Task(Runnable, b, 0)], Some(0)), r)
  {
  }

  lemma BlockSecond(a: UserContext, b: UserContext, r: UserContext)
    ensures Step(Machine(Sched([Task(Blocked, a, 0), Task(Runnable, b, 0)], Some(0)), r), BlockTask(1)) ==
      Machine(Sched([Task(Blocked, a, 0), Task(Blocked, b, 0)], Some(0)), r)
  {
  }

  /** Both boot tasks blocked, the first still current. */
  lemma BothBlocked(a: UserContext, b: UserContext, r: UserContext)
    ensures Run(Machine(BootSched(a, b), r), [BlockTask(0), BlockTask(1)]) ==
      Machine(Sched([Task(Blocked, a, 0), Task(Blocked, b, 0)], Some(0)), r)
  {
    hide Run, Step;
    var m := Machine(BootSched(a, b), r);
    RunNothing(m);
    RunSnoc(m, [], BlockTask(0));
    RunSnoc(m, [BlockTask(0)], BlockTask(1));
    assert [] + [BlockTask(0)] == [BlockTask(0)] && [BlockTask(0)] + [BlockTask(1)] == [BlockTask(0), BlockTask(1)];
    BlockFirst(a, b, r);
    BlockSecond(a, b, r);
  }

  /** The timer then saves the interrupted registers and leaves no task current. */
  lemma NothingToResume(a: UserContext, b: UserContext, r: UserContext)
    ensures Step(Machine(Sched([Task(Blocked, a, 0), Task(Blocked, b, 0)], Some(0)), r), Timer) ==
      Machine(Sched([Task(Blocked, r, 0), Task(Blocked, b, 0)], None), r)
  {
    var s := Sched([Task(Blocked, a, 0), Task(Blocked, b, 0)], Some(0));
    var saved := SaveContext(s, 0, r).0;
    assert saved.tasks == [Task(Blocked, r, 0), Task(Blocked, b, 0)];
    assert Pick(saved.tasks, 1, 0) == None;
  }

  /**
   From boot, with both tasks blocked: the interrupted program keeps executing
   after the timer, and what it then computes is nobody's, in every continuation.
   */
  lemma StrandedStepIsLost(a: UserContext, b: UserContext, r: UserContext, d: UserContext, later: seq<Event>)
    ensures var m := Run(Machine(BootSched(a, b), r), [BlockTask(0), BlockTask(1), Timer, User(d)]);
      && |m.sched.tasks| == 2 && m.sched.current.None?
      && m.regs == d
      && CpuOf(m, 0) == Some(r) && CpuOf(m, 1) == Some(b)
      && CpuOf(Run(m, later), 0) == Some(r) && CpuOf(Run(m, later), 1) == Some(b)
  {
    hide Run, TimerSwitch;
    var m0, blocks := Machine(BootSched(a, b), r), [BlockTask(0), BlockTask(1)];
    BothBlocked(a, b, r);
    NothingToResume(a, b, r);
    RunSnoc(m0, blocks, Timer);
    RunSnoc(m0, blocks + [Timer], User(d));
    assert blocks + [Timer] + [User(d)] == [BlockTask(0), BlockTask(1), Timer, User(d)];
    var m := Run(m0, blocks + [Timer] + [User(d)]);
    assert m == Machine(Sched([Task(Blocked, r, 0), Task(Blocked, b, 0)], None), d);
    IdleForEver(m, later, 0);
    IdleForEver(m, later, 1);
  }

  // ---------------------------------------------------------------------
  // Bounded waiting for the timer
  // ---------------------------------------------------------------------

  function TimerEvents(evs: seq<Event>): nat {
    if evs == [] then 0 else TimerEvents(evs[..|evs| - 1]) + Bit(evs[|evs| - 1].Timer?)
  }

  /** Task `t` is runnable at the start and after every event. */
  predicate KeepsRunnable(m: Machine, evs: seq<Event>, t: nat)
    requires WellFormed(m.sched)
    decreases |evs|
  {
    && t < |m.sched.tasks|
    && Run(m, evs).sched.tasks[t].state == Runnable
    && (evs != [] ==> KeepsRunnable(m, evs[..|evs| - 1], t))
  }

  lemma TimerApproaches(origin: nat, m: Machine, chosen: seq<nat>, t: nat)
    requires WellFormed(m.sched) && m.sched.current.Some?
    requires t < |m.sched.tasks| && origin < |m.sched.tasks| && m.sched.tasks[t].state == Runnable
    requires Approaching(origin, m.sched, chosen, t)
    ensures var (m', switch) := TimerSwitch(m);
      && switch.Some? && m'.sched.current == Some(switch.value.1)
      && (switch.value.1 != t ==> Approaching(origin, m'.sched, chosen + [switch.value.1], t))
  {
    var saved := SaveContext(m.sched, m.sched.current.value, m.regs).0;
    assert Approaching(origin, saved, chosen, t);
    hide Schedule, Approaching;
    ScheduleApproaches(origin, saved, chosen, t);
    ScheduleSwitches(saved);
  }

  lemma ScheduleSwitches(s: Sched)
    requires WellFormed(s)
    ensures Schedule(s).1.Some? <==> Schedule(s).0.current.Some?
    ensures Schedule(s).1.Some? ==> Schedule(s).0.current == Some(Schedule(s).1.value.next)
  {
  }

  lemma {:induction false} TimersApproach(m: Machine, evs: seq<Event>, t: nat)
    requires WellFormed(m.sched) && m.sched.current.Some?
    requires KeepsRunnable(m, evs, t) && t !in Resumed(m, evs)
    ensures Approaching(Start(m.sched), Run(m, evs).sched, Resumed(m, evs), t)
    ensures Run(m, evs).sched.current.Some? && |Resumed(m, evs)| == TimerEvents(evs)
  {
    hide TimerSwitch;
    if evs != [] {
      var before, ev := evs[..|evs| - 1], evs[|evs| - 1];
      var mid := Run(m, before);
      assert mid.sched.tasks[t].state == Runnable;
      assert t !in Resumed(m, before);
      TimersApproach(m, before, t);
      StepCurrent(mid, ev);
      if ev.Timer? {
        TimerApproaches(Start(m.sched), mid, Resumed(m, before), t);
      }
    }
  }

  /**
   Bounded waiting under preemption: while some task is current, a task that stays
   runnable is resumed within as many timer interrupts as there are task slots,
   and no other task is resumed twice before it; from an idle machine it never is.
   */
  lemma TimerBoundedWaiting(m: Machine, evs: seq<Event>, t: nat)
    requires WellFormed(m.sched) && KeepsRunnable(m, evs, t)
    ensures m.sched.current.Some? && TimerEvents(evs) >= |m.sched.tasks| ==> t in Resumed(m, evs)
    ensures m.sched.current.Some? && t !in Resumed(m, evs) ==>
      Distinct(Resumed(m, evs)) && |Resumed(m, evs)| == TimerEvents(evs)
    ensures m.sched.current.None? ==> t !in Resumed(m, evs)
  {
    hide Resumed, Run, KeepsRunnable;
    if m.sched.current.None? {
      IdleStays(m, evs);
    } else if t !in Resumed(m, evs) {
      KeepsInRange(m, evs, t);
      TimersApproach(m, evs, t);
    }
  }

  /** While some task stays runnable no timer interrupt comes up empty. */
  lemma {:induction false} RunnableNeverStrands(m: Machine, evs: seq<Event>, t: nat)
    requires WellFormed(m.sched) && KeepsRunnable(m, evs, t)
    ensures !Stranded(m, evs)
  {
    hide Stranded, Run;
    if evs == [] {
      NotYetStranded(m);
    } else {
      var before := evs[..|evs| - 1];
      RunnableNeverStrands(m, before, t);
      StrandedSnoc(m, evs);
      assert Run(m, before).sched.tasks[t].state == Runnable;
    }
  }

  lemma {:induction false} RunnableNeverRunsStranded(m: Machine, evs: seq<Event>, t: nat)
    requires WellFormed(m.sched) && KeepsRunnable(m, evs, t)
    ensures !RunsStranded(m, evs)
  {
    hide Stranded, RunsStranded, Run;
    if evs == [] {
      NobodyRanStranded(m);
    } else {
      var before := evs[..|evs| - 1];
      RunnableNeverRunsStranded(m, before, t);
      RunnableNeverStrands(m, before, t);
      RunsStrandedSnoc(m, evs);
    }
  }

  /** While some task stays runnable, every user step is a step of its own task's private CPU. */
  lemma RunnableRefinesOwnedCpus(m: Machine, evs: seq<Event>, t: nat)
    requires WellFormed(m.sched) && m.sched.current.Some? && KeepsRunnable(m, evs, t)
    ensures Cpus(Run(m, evs)) == PrivateRun(Cpus(m), OwnedLabels(m, evs))
  {
    hide Run, Cpus, PrivateRun, OwnedLabels, KeepsRunnable, RunsStranded;
    RunnableNeverRunsStranded(m, evs, t);
    RefinesOwnedCpus(m, evs);
  }

  lemma KeepsInRange(m: Machine, evs: seq<Event>, t: nat)
    requires WellFormed(m.sched) && KeepsRunnable(m, evs, t)
    ensures t < |m.sched.tasks|
  {
  }

  // ---------------------------------------------------------------------
  // The kernel's code
  // ---------------------------------------------------------------------

  class Core {
    const scheduler: Scheduler
    const frame: array<U64>
    var sp: U64
    var elr: U64
    var spsr: U64
    var ttbr: U64

    ghost predicate Valid()
      reads this, scheduler, scheduler.tasks
    {
      frame.Length == 31 && scheduler.Valid()
    }

    ghost function View(): Machine
      reads this, frame, scheduler, scheduler.tasks
      requires Valid()
    {
      Machine(scheduler.View(), UserContext(frame[..], sp, elr, spsr, ttbr))
    }

    constructor (scheduler: Scheduler, frame: array<U64>, sp: U64, elr: U64, spsr: U64, ttbr: U64)
      requires scheduler.Valid() && frame.Length == 31
      ensures Valid() && View() == Machine(scheduler.View(), UserContext(frame[..], sp, elr, spsr, ttbr))
      ensures this.scheduler == scheduler && this.frame == frame
    {
      this.scheduler, this.frame := scheduler, frame;
      this.sp, this.elr, this.spsr, this.ttbr := sp, elr, spsr, ttbr;
    }

    /** Copies the saved registers into the exception frame. */
    method RestoreFrame(x: Gprs)
      requires frame.Length == 31
      modifies frame
      ensures frame[..] == x
    {
      var i := 0;
      while i < 31
        invariant 0 <= i <= 31
        invariant frame[..i] == x[..i]
      {
        frame[i] := x[i];
        i := i + 1;
      }
    }

    method ScheduleLowerFrame() returns (r: Option<(nat, nat)>)
      requires Valid()
      modifies this, frame, scheduler, scheduler.tasks
      ensures Valid()
      ensures (View(), r) == TimerSwitch(old(View()))
    {
      if scheduler.current.None? {
        return None;
      }
      var previous := scheduler.current.value;
      var saved := scheduler.Context(previous);
      if saved.None? {
        return None;
      }
      var context := saved.value.(x := frame[..], sp := sp, elr := elr, spsr := spsr, ttbr := ttbr);
      var stored := scheduler.SaveContext(previous, context);
      if stored.Err? {
        return None;
      }
      var switch := scheduler.Schedule();
      if switch.None? {
        return None;
      }
      var next := switch.value.next;
      var restored := scheduler.Context(next);
      if restored.None? {
        return None;
      }
      RestoreFrame(restored.value.x);
      sp, elr, spsr, ttbr := restored.value.sp, restored.value.elr, restored.value.spsr, restored.value.ttbr;
      return Some((previous, next));
    }
  }

  /** Boot: two tasks are spawned as 0 and 1, both runnable, and task 0 is chosen to run first. */
  method InitializeLiveScheduler(a: UserContext, b: UserContext) returns (scheduler: Scheduler)
    ensures fresh(scheduler) && fresh(scheduler.tasks) && scheduler.Valid()
    ensures scheduler.View() == BootSched(a, b)
  {
    scheduler := new Scheduler(2);
    var taskA := scheduler.Spawn(a);
    assert scheduler.View().tasks == [Task(Runnable, a, 0), EMPTY_TASK];
    var taskB := scheduler.Spawn(b);
    assert FirstUnused([Task(Runnable, a, 0), EMPTY_TASK], 0) == FirstUnused([Task(Runnable, a, 0), EMPTY_TASK], 1);
    assert taskA == Ok(0) && taskB == Ok(1);
    var switch := scheduler.Schedule();
    assert switch.Some? && switch.value.next == 0;
  }
}
