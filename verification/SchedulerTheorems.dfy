/**
 What every run of the scheduler guarantees to a task that stays runnable:
 bounded waiting, fair turns, and complete accounting of the ticks.
 */
module SchedulerTheorems {
  import opened Common
  import opened SchedulerModel

  /** Task `t` is runnable at the start of the run and after every operation in it. */
  predicate StaysRunnable(s: Sched, ops: seq<Op>, t: nat)
    requires WellFormed(s)
    decreases |ops|
  {
    && t < |s.tasks|
    && Run(s, ops).tasks[t].state == Runnable
    && (ops != [] ==> StaysRunnable(s, ops[..|ops| - 1], t))
  }

  /** A runnable task that nobody blocks or faults stays runnable. */
  lemma {:induction false} UndisturbedStays(s: Sched, ops: seq<Op>, t: nat)
    requires WellFormed(s) && t < |s.tasks| && s.tasks[t].state == Runnable
    requires forall k :: 0 <= k < |ops| ==> ops[k] != OpBlock(t) && ops[k] != OpFault(t)
    ensures StaysRunnable(s, ops, t)
  {
    if ops != [] {
      var before := ops[..|ops| - 1];
      UndisturbedStays(s, before, t);
      StepKeepsRunnable(Run(s, before), ops[|ops| - 1], t);
    }
  }

  lemma StepKeepsRunnable(s: Sched, op: Op, t: nat)
    requires WellFormed(s) && t < |s.tasks| && s.tasks[t].state == Runnable
    requires op != OpBlock(t) && op != OpFault(t)
    ensures Step(s, op).tasks[t].state == Runnable
  {
  }

  /** The tasks chosen by the `schedule` calls of the run, in order. */
  function Chosen(s: Sched, ops: seq<Op>): seq<nat>
    requires WellFormed(s)
  {
    if ops == [] then [] else
    var before := ops[..|ops| - 1];
    if ops[|ops| - 1].OpSchedule? && Run(s, ops).current.Some? then
      Chosen(s, before) + [Run(s, ops).current.value]
    else Chosen(s, before)
  }

  function ScheduleCalls(ops: seq<Op>): nat {
    if ops == [] then 0 else
    ScheduleCalls(ops[..|ops| - 1]) + if ops[|ops| - 1].OpSchedule? then 1 else 0
  }

  // ---------------------------------------------------------------------
  // Bounded waiting
  // ---------------------------------------------------------------------

  /**
   Seen from the ring position `origin`: the search now starts no later than at
   `t`, and the tasks `chosen` so far all lie before the search, each once.
   */
  ghost predicate Approaching(origin: nat, s: Sched, chosen: seq<nat>, t: nat)
    requires WellFormed(s) && t < |s.tasks| && origin < |s.tasks|
  {
    var n := |s.tasks|;
    && Gap(origin, Start(s), n) <= Gap(origin, t, n)
    && |chosen| <= Gap(origin, Start(s), n)
    && (forall i :: 0 <= i < |chosen| ==> chosen[i] < n && Gap(origin, chosen[i], n) < Gap(origin, Start(s), n))
    && Distinct(chosen)
  }

  /** The next choice lies between the start of the search and any runnable task. */
  lemma NextBetween(origin: nat, s: Sched, t: nat)
    requires WellFormed(s) && t < |s.tasks| && origin < |s.tasks| && s.tasks[t].state == Runnable
    requires Gap(origin, Start(s), |s.tasks|) <= Gap(origin, t, |s.tasks|)
    ensures var s' := Schedule(s).0; var n := |s.tasks|;
      && s'.current.Some? && s'.current.value < n
      && Gap(origin, Start(s), n) <= Gap(origin, s'.current.value, n) <= Gap(origin, t, n)
      && (s'.current.value != t ==> Gap(origin, Start(s'), n) == Gap(origin, s'.current.value, n) + 1)
      && (s'.current.value != t ==> Gap(origin, s'.current.value, n) < Gap(origin, t, n))
  {
    var tasks := Charge(s);
    assert tasks[t].state == Runnable;
    var next := Pick(tasks, Start(s), 0);
    assert Gap(Start(s), next.value, |tasks|) <= Gap(Start(s), t, |tasks|);
  }

  lemma ScheduleApproaches(origin: nat, s: Sched, chosen: seq<nat>, t: nat)
    requires WellFormed(s) && t < |s.tasks| && origin < |s.tasks| && s.tasks[t].state == Runnable
    requires Approaching(origin, s, chosen, t)
    ensures var s' := Schedule(s).0;
      s'.current.Some? && (s'.current.value != t ==> Approaching(origin, s', chosen + [s'.current.value], t))
  {
    NextBetween(origin, s, t);
  }

  /** Only `schedule` moves the current task. */
  lemma OthersKeepCurrent(s: Sched, op: Op)
    requires WellFormed(s)
    ensures if op.OpSchedule? then Step(s, op) == Schedule(s).0 else Step(s, op).current == s.current
  {
  }

  lemma {:induction false} RunApproaches(s: Sched, ops: seq<Op>, t: nat)
    requires WellFormed(s) && StaysRunnable(s, ops, t) && t !in Chosen(s, ops)
    ensures Approaching(Start(s), Run(s, ops), Chosen(s, ops), t)
    ensures |Chosen(s, ops)| == ScheduleCalls(ops)
  {
    hide Step, Schedule;
    if ops != [] {
      var before, op := ops[..|ops| - 1], ops[|ops| - 1];
      assert Run(s, before).tasks[t].state == Runnable;
      assert t !in Chosen(s, before);
      RunApproaches(s, before, t);
      OthersKeepCurrent(Run(s, before), op);
      if op.OpSchedule? {
        ScheduleApproaches(Start(s), Run(s, before), Chosen(s, before), t);
      }
    }
  }

  /**
   Bounded waiting: whatever else happens in between, a task that stays runnable
   is chosen within as many `schedule` calls as there are task slots, and no other
   task is chosen twice while it waits.
   */
  lemma BoundedWaiting(s: Sched, ops: seq<Op>, t: nat)
    requires WellFormed(s) && StaysRunnable(s, ops, t)
    ensures ScheduleCalls(ops) >= |s.tasks| ==> t in Chosen(s, ops)
    ensures t !in Chosen(s, ops) ==> Distinct(Chosen(s, ops)) && |Chosen(s, ops)| == ScheduleCalls(ops)
  {
    if t !in Chosen(s, ops) {
      RunApproaches(s, ops, t);
    }
  }

  /** A task in use that is woken, and then neither blocked nor faulted, is chosen within |tasks| calls. */
  lemma {:induction false} WokenIsChosen(s: Sched, ops: seq<Op>, t: nat)
    requires WellFormed(s) && t < |s.tasks| && s.tasks[t].state != Unused
    requires forall k :: 0 <= k < |ops| ==> ops[k] != OpBlock(t) && ops[k] != OpFault(t)
    requires ScheduleCalls(ops) >= |s.tasks|
    ensures t in Chosen(Step(s, OpWake(t)), ops)
  {
    var s' := Step(s, OpWake(t));
    UndisturbedStays(s', ops, t);
    BoundedWaiting(s', ops, t);
  }

  predicate Asleep(s: Sched, t: nat) {
    t < |s.tasks| && (s.tasks[t].state == Blocked || s.tasks[t].state == Faulted)
  }

  /** Only a wake brings a blocked or faulted task back, and `schedule` does not choose it. */
  lemma StepSleeps(s: Sched, op: Op, t: nat)
    requires WellFormed(s) && Asleep(s, t) && op != OpWake(t)
    ensures Asleep(Step(s, op), t)
    ensures op.OpSchedule? ==> Step(s, op).current != Some(t)
  {
  }

  lemma {:induction false} SleepsThrough(s: Sched, ops: seq<Op>, t: nat)
    requires WellFormed(s) && Asleep(s, t)
    requires forall k :: 0 <= k < |ops| ==> ops[k] != OpWake(t)
    ensures Asleep(Run(s, ops), t) && t !in Chosen(s, ops)
  {
    hide Step, Asleep;
    if ops != [] {
      SleepsThrough(s, ops[..|ops| - 1], t);
      StepSleeps(Run(s, ops[..|ops| - 1]), ops[|ops| - 1], t);
    }
  }

  /** After a block or a fault of a task in use, it is not chosen again until it is woken. */
  lemma {:induction false} AsleepIsNotChosen(s: Sched, op: Op, ops: seq<Op>, t: nat)
    requires WellFormed(s) && t < |s.tasks| && s.tasks[t].state != Unused
    requires op == OpBlock(t) || op == OpFault(t)
    requires forall k :: 0 <= k < |ops| ==> ops[k] != OpWake(t)
    ensures t !in Chosen(Step(s, op), ops)
  {
    SleepsThrough(Step(s, op), ops, t);
  }

  // ---------------------------------------------------------------------
  // Fair turns
  // ---------------------------------------------------------------------

  /** `schedule` calls of the run that charged a tick to `t`. */
  function Charges(s: Sched, ops: seq<Op>, t: nat): nat
    requires WellFormed(s)
  {
    if ops == [] then 0 else
    Charges(s, ops[..|ops| - 1], t) + if Charged(Run(s, ops[..|ops| - 1]), ops[|ops| - 1], t) then 1 else 0
  }

  predicate Charged(s: Sched, op: Op, t: nat)
    requires WellFormed(s)
  {
    op.OpSchedule? && Busy(s) && s.current.value == t
  }

  /** `a` comes before `b` in the ring, counted from the current task. */
  predicate Ahead(s: Sched, a: nat, b: nat) {
    var head := if s.current.None? then 0 else s.current.value;
    Gap(head, a, |s.tasks|) < Gap(head, b, |s.tasks|)
  }

  lemma ScheduleSize(s: Sched)
    requires WellFormed(s)
    ensures |Schedule(s).0.tasks| == |s.tasks|
  {
  }

  /** A charge goes to the task ahead and sends it behind; other turns keep the order. */
  lemma TurnsAlternate(s: Sched, a: nat, b: nat)
    requires WellFormed(s) && a < |s.tasks| && b < |s.tasks| && a != b
    requires s.tasks[a].state == Runnable && s.tasks[b].state == Runnable
    ensures Charged(s, OpSchedule, a) ==> Ahead(s, a, b) && Ahead(Schedule(s).0, b, a)
    ensures Charged(s, OpSchedule, b) ==> Ahead(s, b, a) && Ahead(Schedule(s).0, a, b)
    ensures !Charged(s, OpSchedule, a) && !Charged(s, OpSchedule, b) ==>
      (Ahead(Schedule(s).0, a, b) <==> Ahead(s, a, b))
  {
    hide Schedule, Pick, Charge;
    ScheduleSize(s);
    NextBetween(Start(s), s, a);
    NextBetween(Start(s), s, b);
  }

  /** One operation charges `a` more than `b` by exactly as much as it moves `a` behind `b`. */
  lemma TurnStep(s: Sched, op: Op, a: nat, b: nat)
    requires WellFormed(s) && a < |s.tasks| && b < |s.tasks| && a != b
    requires s.tasks[a].state == Runnable && s.tasks[b].state == Runnable
    ensures Bit(Charged(s, op, a)) - Bit(Charged(s, op, b)) == Bit(Ahead(s, a, b)) - Bit(Ahead(Step(s, op), a, b))
  {
    if op.OpSchedule? {
      hide Schedule, Pick;
      TurnsAlternate(s, a, b);
    }
  }

  /** Fair turns: two tasks that both stay runnable are charged equally often, give or take one. */
  lemma {:induction false} FairTurns(s: Sched, ops: seq<Op>, a: nat, b: nat)
    requires WellFormed(s) && a != b && StaysRunnable(s, ops, a) && StaysRunnable(s, ops, b)
    ensures Charges(s, ops, a) - Charges(s, ops, b) == Bit(Ahead(s, a, b)) - Bit(Ahead(Run(s, ops), a, b))
    ensures -1 <= Charges(s, ops, a) - Charges(s, ops, b) <= 1
  {
    hide Step, Ahead, Charged;
    if ops != [] {
      var before, op := ops[..|ops| - 1], ops[|ops| - 1];
      assert Run(s, before).tasks[a].state == Runnable && Run(s, before).tasks[b].state == Runnable;
      FairTurns(s, before, a, b);
      TurnStep(Run(s, before), op, a, b);
    }
  }

  // ---------------------------------------------------------------------
  // Accounting
  // ---------------------------------------------------------------------

  lemma StepTicks(s: Sched, op: Op, t: nat)
    requires WellFormed(s) && t < |s.tasks|
    ensures s.tasks[t].state != Unused ==>
      && Step(s, op).tasks[t].state != Unused
      && Step(s, op).tasks[t].ticks == if Charged(s, op, t) then Tick(s.tasks[t].ticks) else s.tasks[t].ticks
    ensures s.tasks[t].state == Unused ==> !Charged(s, op, t)
    ensures s.tasks[t].state == Unused && s.tasks[t].ticks == 0 ==> Step(s, op).tasks[t].ticks == 0
  {
  }

  /** Over any run segment the counter of a task in use grows, with wrap-around, by its charges. */
  lemma {:induction false} TickGrowth(s: Sched, ops: seq<Op>, t: nat)
    requires WellFormed(s) && t < |s.tasks| && s.tasks[t].state != Unused
    ensures Run(s, ops).tasks[t].state != Unused
    ensures Run(s, ops).tasks[t].ticks == TickAdd(s.tasks[t].ticks, Charges(s, ops, t))
  {
    hide Step, Charged;
    if ops != [] {
      TickGrowth(s, ops[..|ops| - 1], t);
      StepTicks(Run(s, ops[..|ops| - 1]), ops[|ops| - 1], t);
    }
  }

  /** A task's counter is the number of its charges since boot. */
  lemma {:induction false} TicksAreCharges(tasks: nat, ops: seq<Op>, t: nat)
    requires t < tasks
    ensures Run(New(tasks), ops).tasks[t].ticks == TickAdd(0, Charges(New(tasks), ops, t))
    ensures Run(New(tasks), ops).tasks[t].state == Unused ==> Charges(New(tasks), ops, t) == 0
  {
    hide Step, Charged;
    if ops != [] {
      var before := ops[..|ops| - 1];
      TicksAreCharges(tasks, before, t);
      StepTicks(Run(New(tasks), before), ops[|ops| - 1], t);
    }
  }

  /** `schedule` calls made while the current task was runnable. */
  function BusyCalls(s: Sched, ops: seq<Op>): nat
    requires WellFormed(s)
  {
    if ops == [] then 0 else
    BusyCalls(s, ops[..|ops| - 1]) +
    if ops[|ops| - 1].OpSchedule? && Busy(Run(s, ops[..|ops| - 1])) then 1 else 0
  }

  function SumCharges(s: Sched, ops: seq<Op>, n: nat): nat
    requires WellFormed(s)
  {
    if n == 0 then 0 else SumCharges(s, ops, n - 1) + Charges(s, ops, n - 1)
  }

  lemma {:induction false} SumChargesStep(s: Sched, ops: seq<Op>, n: nat)
    requires WellFormed(s) && ops != []
    ensures SumCharges(s, ops, n) == SumCharges(s, ops[..|ops| - 1], n) +
      var mid := Run(s, ops[..|ops| - 1]);
      if ops[|ops| - 1].OpSchedule? && Busy(mid) && mid.current.value < n then 1 else 0
  {
    if n > 0 {
      SumChargesStep(s, ops, n - 1);
    }
  }

  lemma {:induction false} ChargesAddUp(s: Sched, ops: seq<Op>)
    requires WellFormed(s)
    ensures SumCharges(s, ops, |s.tasks|) == BusyCalls(s, ops)
  {
    if ops == [] {
      NoCharges(s, |s.tasks|);
    } else {
      ChargesAddUp(s, ops[..|ops| - 1]);
      SumChargesStep(s, ops, |s.tasks|);
    }
  }

  lemma {:induction false} NoCharges(s: Sched, n: nat)
    requires WellFormed(s)
    ensures SumCharges(s, [], n) == 0
  {
    if n > 0 {
      NoCharges(s, n - 1);
    }
  }

  function SumTicks(tasks: seq<Task>): nat {
    if tasks == [] then 0 else SumTicks(tasks[..|tasks| - 1]) + tasks[|tasks| - 1].ticks
  }

  /** The counters below `n` sum to at most the charges, and to exactly the charges iff none of them wrapped. */
  lemma {:induction false} SumTicksPrefix(tasks: nat, ops: seq<Op>, n: nat)
    requires n <= tasks
    ensures SumTicks(Run(New(tasks), ops).tasks[..n]) <= SumCharges(New(tasks), ops, n)
    ensures SumTicks(Run(New(tasks), ops).tasks[..n]) == SumCharges(New(tasks), ops, n) <==>
      forall t :: 0 <= t < n ==> Charges(New(tasks), ops, t) < 0x1_0000_0000_0000_0000
  {
    hide Run, Charges;
    var ts := Run(New(tasks), ops).tasks;
    if n > 0 {
      SumTicksPrefix(tasks, ops, n - 1);
      TicksAreCharges(tasks, ops, n - 1);
      TickAddBound(Charges(New(tasks), ops, n - 1));
      assert ts[..n][..n - 1] == ts[..n - 1];
    }
  }

  /**
   Nothing is lost: all counters together hold one tick for every busy `schedule`
   call since boot if and only if no single counter has wrapped.
   */
  lemma TicksAddUp(tasks: nat, ops: seq<Op>)
    ensures SumTicks(Run(New(tasks), ops).tasks) == BusyCalls(New(tasks), ops) <==>
      forall t :: 0 <= t < tasks ==> Charges(New(tasks), ops, t) < 0x1_0000_0000_0000_0000
  {
    ChargesAddUp(New(tasks), ops);
    SumTicksPrefix(tasks, ops, tasks);
    assert Run(New(tasks), ops).tasks[..tasks] == Run(New(tasks), ops).tasks;
  }

  // ---------------------------------------------------------------------
  // A counter wraps
  // ---------------------------------------------------------------------

  /** One task is spawned and chosen, and then interrupted `k` times. */
  function Turns(c: UserContext, k: nat): seq<Op> {
    if k == 0 then [OpSpawn(c), OpSchedule] else Turns(c, k - 1) + [OpSchedule]
  }

  /** The only task has been charged `k` times since boot. */
  function Lone(c: UserContext, k: nat): Sched {
    Sched([Task(Runnable, c, TickAdd(0, k))], Some(0))
  }

  lemma RunSnoc(s: Sched, ops: seq<Op>, op: Op)
    requires WellFormed(s)
    ensures Run(s, ops + [op]) == Step(Run(s, ops), op)
    ensures Charges(s, ops + [op], 0) == Charges(s, ops, 0) + Bit(Charged(Run(s, ops), op, 0))
    ensures BusyCalls(s, ops + [op]) == BusyCalls(s, ops) + Bit(op.OpSchedule? && Busy(Run(s, ops)))
  {
    hide Step, Charged, Busy;
    assert (ops + [op])[..|ops + [op]| - 1] == ops;
  }

  lemma LoneBoots(c: UserContext)
    ensures Step(Step(New(1), OpSpawn(c)), OpSchedule) == Lone(c, 0) && !Busy(Step(New(1), OpSpawn(c)))
  {
    assert FirstUnused(New(1).tasks, 0) == Some(0);
    assert Spawn(New(1), c).0 == Sched([Task(Runnable, c, 0)], None);
    assert Pick([Task(Runnable, c, 0)], 0, 0) == Some(0);
  }

  lemma LoneTurns(c: UserContext, k: nat)
    ensures Step(Lone(c, k), OpSchedule) == Lone(c, k + 1) && Busy(Lone(c, k))
  {
    assert Charge(Lone(c, k)) == Lone(c, k + 1).tasks;
    assert Pick(Lone(c, k + 1).tasks, 0, 0) == Some(0);
  }

  lemma RunNothing(s: Sched)
    requires WellFormed(s)
    ensures Run(s, []) == s && Charges(s, [], 0) == 0 && BusyCalls(s, []) == 0
  {
  }

  lemma BeforeTurns(c: UserContext)
    ensures Run(New(1), [OpSpawn(c), OpSchedule]) == Lone(c, 0)
    ensures Charges(New(1), [OpSpawn(c), OpSchedule], 0) == 0 && BusyCalls(New(1), [OpSpawn(c), OpSchedule]) == 0
  {
    hide Run, Charges, BusyCalls, Step, Lone, Busy;
    RunNothing(New(1));
    RunSnoc(New(1), [], OpSpawn(c));
    RunSnoc(New(1), [OpSpawn(c)], OpSchedule);
    assert [] + [OpSpawn(c)] == [OpSpawn(c)] && [OpSpawn(c)] + [OpSchedule] == [OpSpawn(c), OpSchedule];
    LoneBoots(c);
  }

  lemma {:induction false} AfterTurns(c: UserContext, k: nat)
    ensures Run(New(1), Turns(c, k)) == Lone(c, k)
    ensures Charges(New(1), Turns(c, k), 0) == k && BusyCalls(New(1), Turns(c, k)) == k
  {
    hide Run, Charges, BusyCalls, Step, Lone, Busy;
    if k == 0 {
      BeforeTurns(c);
    } else {
      AfterTurns(c, k - 1);
      RunSnoc(New(1), Turns(c, k - 1), OpSchedule);
      LoneTurns(c, k - 1);
      LoneIsCurrent(c, k - 1);
    }
  }

  lemma LoneIsCurrent(c: UserContext, k: nat)
    ensures Lone(c, k).current == Some(0)
  {
  }

  /** After 2^64 charges to the only task its counter reads zero, and the ticks no longer add up. */
  lemma TicksWrap(c: UserContext, k: nat)
    requires k == 0x1_0000_0000_0000_0000
    ensures SumTicks(Run(New(1), Turns(c, k)).tasks) == 0
    ensures BusyCalls(New(1), Turns(c, k)) == 0x1_0000_0000_0000_0000
  {
    hide Turns, Run, BusyCalls, Charges;
    AfterTurns(c, k);
    TickAddBound(k - 1);
    var tasks := Lone(c, k).tasks;
    assert tasks[..0] == [] && tasks[0].ticks == 0;
  }
}
