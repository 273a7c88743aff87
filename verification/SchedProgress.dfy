/** Progress over runs of the scheduler: each queue is served first in, first out, and no queued thread starves. */
module SchedProgress {
  import opened SchedSpec
  import opened SchedSafety

  ghost function LevelOf(s: Sched, cpu: nat, p: nat): Level
    requires Shape(s) && cpu < MAX_CPUS && p < MAX_PRIORITY
  {
    s.cpus[cpu].levels[p]
  }

  ghost predicate Prefix(a: seq<Tid>, b: seq<Tid>) { |a| <= |b| && a == b[..|a|] }

  // ----- One step -----

  /** Re-enqueueing the running thread only adds slots at the tails. */
  lemma RequeuedLevels(s: Sched, cpu: nat, c: nat, p: nat)
    requires Shape(s) && cpu < MAX_CPUS && c < MAX_CPUS && p < MAX_PRIORITY
    ensures Shape(Requeued(s, cpu))
    ensures var l, l' := LevelOf(s, c, p), LevelOf(Requeued(s, cpu), c, p);
      l'.head == l.head && Prefix(l.accepted, l'.accepted) && (c != cpu ==> l' == l)
  {
    RequeuedShape(s, cpu);
  }

  /** The level a schedule call on cpu dequeues from, MAX_PRIORITY if it finds none. */
  ghost function ServedLevel(s: Sched, cpu: nat, idle: Tid): nat
    requires Shape(s) && cpu < MAX_CPUS && idle !in s.threads
  {
    RequeuedShape(WithIdle(s, idle), cpu);
    FirstLevel(Requeued(WithIdle(s, idle), cpu).cpus[cpu].levels, 0)
  }

  /** The threads that a step takes from level p of a CPU: one or none. */
  ghost function ServedBy(s: Sched, step: Step, cpu: nat, p: nat): seq<Tid>
    requires Enabled(s, step) && cpu < MAX_CPUS && p < MAX_PRIORITY
  {
    NextShape(s, step);
    if && step.ScheduleStep? && step.cpu == cpu && ServedLevel(s, cpu, step.idle) == p
       && Next(s, step).cpus[cpu].current.Some?
    then [Next(s, step).cpus[cpu].current.value] else []
  }

  /** A schedule call serves the oldest thread of its level and moves the other levels' heads not at all. */
  lemma ScheduleLevels(s: Sched, cpu: nat, idle: Tid, c: nat, p: nat)
    requires Shape(s) && cpu < MAX_CPUS && idle !in s.threads && c < MAX_CPUS && p < MAX_PRIORITY
    ensures Shape(Schedule(s, cpu, idle))
    ensures var l, l', q := LevelOf(s, c, p), LevelOf(Schedule(s, cpu, idle), c, p), ServedLevel(s, cpu, idle);
      && Prefix(l.accepted, l'.accepted)
      && (if c == cpu && p == q
          then && l'.head == l.head + 1 && l.head < |l'.accepted|
               && Schedule(s, cpu, idle).cpus[cpu].current == Some(l'.accepted[l.head])
          else l'.head == l.head)
    ensures c == cpu && LevelOf(s, c, p).head < |LevelOf(s, c, p).accepted| ==> ServedLevel(s, cpu, idle) <= p
  {
    var s1 := WithIdle(s, idle);
    RequeuedLevels(s1, cpu, c, p);
    ScheduleShape(s, cpu, idle);
  }

  lemma StepLevels(s: Sched, step: Step, cpu: nat, p: nat)
    requires Enabled(s, step) && cpu < MAX_CPUS && p < MAX_PRIORITY
    ensures Shape(Next(s, step))
    ensures var l, l' := LevelOf(s, cpu, p), LevelOf(Next(s, step), cpu, p);
      && Prefix(l.accepted, l'.accepted) && l.head <= l'.head
      && ServedBy(s, step, cpu, p) == l'.accepted[l.head..l'.head]
  {
    if step.ScheduleStep? { ScheduleLevels(s, step.cpu, step.idle, cpu, p); }
  }

  // ----- First in, first out -----

  ghost function Served(s: Sched, run: seq<Step>, cpu: nat, p: nat): seq<Tid>
    requires Shape(s) && IsRun(s, run) && cpu < MAX_CPUS && p < MAX_PRIORITY
    decreases |run|
  {
    if run == [] then []
    else
      NextShape(s, run[0]);
      ServedBy(s, run[0], cpu, p) + Served(Next(s, run[0]), run[1..], cpu, p)
  }

  /** Over any run, a queue serves its threads in the order in which it accepted them, without skipping one. */
  lemma {:induction false} Fifo(s: Sched, run: seq<Step>, cpu: nat, p: nat)
    requires Shape(s) && IsRun(s, run) && cpu < MAX_CPUS && p < MAX_PRIORITY
    ensures Shape(Final(s, run))
    ensures var l, l' := LevelOf(s, cpu, p), LevelOf(Final(s, run), cpu, p);
      && Prefix(l.accepted, l'.accepted) && l.head <= l'.head
      && Served(s, run, cpu, p) == l'.accepted[l.head..l'.head]
    decreases |run|
  {
    if run != [] {
      var n := Next(s, run[0]);
      StepLevels(s, run[0], cpu, p);
      Fifo(n, run[1..], cpu, p);
      SliceJoin(LevelOf(s, cpu, p), LevelOf(n, cpu, p), LevelOf(Final(s, run), cpu, p));
    }
  }

  lemma SliceJoin(l: Level, l1: Level, l2: Level)
    requires l.head <= l1.head <= l2.head && l1.head <= |l1.accepted| && l2.head <= |l2.accepted|
    requires Prefix(l.accepted, l1.accepted) && Prefix(l1.accepted, l2.accepted)
    ensures Prefix(l.accepted, l2.accepted)
    ensures l1.accepted[l.head..l1.head] + l2.accepted[l1.head..l2.head] == l2.accepted[l.head..l2.head]
  {
  }

  /** The slots are never reused, so a queue serves at most 64 threads in its whole life. */
  lemma QueueRunsDry(s: Sched, run: seq<Step>, cpu: nat, p: nat)
    requires Shape(s) && IsRun(s, run) && cpu < MAX_CPUS && p < MAX_PRIORITY
    ensures |Served(s, run, cpu, p)| <= MAX_RUNQUEUE_SIZE - LevelOf(s, cpu, p).head
  {
    Fifo(s, run, cpu, p);
  }

  /** No schedule call and no ageing pass brings a dropped thread back. */
  lemma {:induction false} DroppedForever(s: Sched, run: seq<Step>, t: Tid)
    requires Inv(s) && IsRun(s, run) && t in s.dropped
    ensures t in Final(s, run).dropped && !Placed(Final(s, run), t)
    decreases |run|
  {
    RunInv(s, run);
    if run != [] {
      StepHistory(s, run[0]);
      RunInv(s, [run[0]]) by { RunOfOne(s, run[0]); }
      RunOfOne(s, run[0]);
      DroppedForever(Next(s, run[0]), run[1..], t);
    }
  }

  // ----- No starvation -----

  /** How often the queues above level p can still be served: each has 64 slots for all time. */
  ghost function RoomAbove(levels: seq<Level>, p: nat): nat
    requires p <= |levels| && LevelsOk(levels)
  {
    if p == 0 then 0 else RoomAbove(levels, p - 1) + (MAX_RUNQUEUE_SIZE - levels[p - 1].head)
  }

  /** Schedule calls that can come before slot k of level p is served. */
  ghost function Ahead(s: Sched, cpu: nat, p: nat, k: nat): nat
    requires Shape(s) && cpu < MAX_CPUS && p < MAX_PRIORITY && LevelOf(s, cpu, p).head <= k
  {
    RoomAbove(s.cpus[cpu].levels, p) + (k - LevelOf(s, cpu, p).head)
  }

  lemma {:induction false} RoomShrinks(levels: seq<Level>, levels': seq<Level>, p: nat, q: nat)
    requires p <= |levels| == |levels'| && LevelsOk(levels) && LevelsOk(levels')
    requires forall r :: 0 <= r < p ==> levels'[r].head == levels[r].head + (if r == q then 1 else 0)
    ensures RoomAbove(levels', p) == RoomAbove(levels, p) - (if q < p then 1 else 0)
  {
    if p > 0 { RoomShrinks(levels, levels', p - 1, q); }
  }

  ghost function Schedules(run: seq<Step>, cpu: nat): nat {
    if run == [] then 0
    else (if run[0].ScheduleStep? && run[0].cpu == cpu then 1 else 0) + Schedules(run[1..], cpu)
  }

  /** A schedule call on the CPU either dispatches the thread or brings it one call closer. */
  lemma CloserByOne(s: Sched, cpu: nat, idle: Tid, p: nat, k: nat, t: Tid)
    requires Shape(s) && cpu < MAX_CPUS && idle !in s.threads && p < MAX_PRIORITY && At(s, Slot(cpu, p, k), t)
    ensures var s' := Schedule(s, cpu, idle);
      && Shape(s')
      && (|| s'.cpus[cpu].current == Some(t)
          || (At(s', Slot(cpu, p, k), t) && Ahead(s', cpu, p, k) == Ahead(s, cpu, p, k) - 1))
  {
    var s', q := Schedule(s, cpu, idle), ServedLevel(s, cpu, idle);
    ScheduleShape(s, cpu, idle);
    forall r | 0 <= r < MAX_PRIORITY
      ensures LevelOf(s', cpu, r).head == LevelOf(s, cpu, r).head + (if r == q then 1 else 0)
    {
      ScheduleLevels(s, cpu, idle, cpu, r);
    }
    ScheduleLevels(s, cpu, idle, cpu, p);
    if q == p && LevelOf(s, cpu, p).head == k {
    } else {
      RoomShrinks(s.cpus[cpu].levels, s'.cpus[cpu].levels, p, q);
      assert LevelOf(s', cpu, p).accepted[k] == t;
    }
  }

  /** Steps on other CPUs, and ageing, leave the thread where it is. */
  lemma NoFurther(s: Sched, step: Step, cpu: nat, p: nat, k: nat, t: Tid)
    requires Enabled(s, step) && cpu < MAX_CPUS && p < MAX_PRIORITY && At(s, Slot(cpu, p, k), t)
    requires step.AgeStep? || step.cpu != cpu
    ensures var s' := Next(s, step);
      Shape(s') && At(s', Slot(cpu, p, k), t) && Ahead(s', cpu, p, k) == Ahead(s, cpu, p, k)
  {
    NextShape(s, step);
    if step.ScheduleStep? {
      var s' := Next(s, step);
      forall r | 0 <= r < MAX_PRIORITY ensures LevelOf(s', cpu, r).head == LevelOf(s, cpu, r).head {
        ScheduleLevels(s, step.cpu, step.idle, cpu, r);
      }
      ScheduleLevels(s, step.cpu, step.idle, cpu, p);
      RoomShrinks(s.cpus[cpu].levels, s'.cpus[cpu].levels, p, MAX_PRIORITY);
      assert LevelOf(s', cpu, p).accepted[k] == t;
    }
  }

  /** Whatever else happens, a queued thread is dispatched within Ahead + 1 schedule calls on its CPU. */
  lemma {:induction false} NoStarvation(s: Sched, run: seq<Step>, cpu: nat, p: nat, k: nat, t: Tid) returns (n: nat)
    requires Shape(s) && IsRun(s, run) && cpu < MAX_CPUS && p < MAX_PRIORITY && At(s, Slot(cpu, p, k), t)
    requires Schedules(run, cpu) > Ahead(s, cpu, p, k)
    ensures 0 < n <= |run| && IsRun(s, run[..n]) && Schedules(run[..n], cpu) <= Ahead(s, cpu, p, k) + 1
    ensures Shape(Final(s, run[..n])) && Final(s, run[..n]).cpus[cpu].current == Some(t)
    decreases |run|
  {
    var step, rest := run[0], run[1..];
    var s' := Next(s, step);
    NextShape(s, step);
    if step.ScheduleStep? && step.cpu == cpu {
      CloserByOne(s, cpu, step.idle, p, k, t);
      if s'.cpus[cpu].current == Some(t) {
        n := 1;
        RunOfOne(s, step);
        assert run[..1] == [step];
        return;
      }
    } else {
      NoFurther(s, step, cpu, p, k, t);
    }
    n := NoStarvation(s', rest, cpu, p, k, t);
    FirstStep(s, run, n, cpu);
    n := n + 1;
  }

  lemma RunOfOne(s: Sched, step: Step)
    requires Enabled(s, step)
    ensures IsRun(s, [step]) && Final(s, [step]) == Next(s, step)
    ensures forall cpu :: Schedules([step], cpu) <= 1
  {
    assert [step][1..] == [];
  }

  /** The first n + 1 steps of a run are its first step and n more. */
  lemma FirstStep(s: Sched, run: seq<Step>, n: nat, cpu: nat)
    requires run != [] && Enabled(s, run[0]) && n < |run| && IsRun(Next(s, run[0]), run[1..][..n])
    ensures IsRun(s, run[..n + 1]) && Final(s, run[..n + 1]) == Final(Next(s, run[0]), run[1..][..n])
    ensures Schedules(run[..n + 1], cpu)
         == (if run[0].ScheduleStep? && run[0].cpu == cpu then 1 else 0) + Schedules(run[1..][..n], cpu)
  {
    assert run[..n + 1][1..] == run[1..][..n];
  }

  // ----- Running dry -----

  /** The schedule calls of a run that make the CPU run the newly created idle thread. */
  ghost function IdleTurns(s: Sched, run: seq<Step>, cpu: nat): nat
    requires Shape(s) && IsRun(s, run) && cpu < MAX_CPUS
    decreases |run|
  {
    if run == [] then 0
    else
      NextShape(s, run[0]);
      (if IdleTurn(s, run[0], cpu) then 1 else 0) + IdleTurns(Next(s, run[0]), run[1..], cpu)
  }

  ghost predicate IdleTurn(s: Sched, step: Step, cpu: nat)
    requires Enabled(s, step) && cpu < MAX_CPUS
  {
    NextShape(s, step);
    step.ScheduleStep? && step.cpu == cpu && Next(s, step).cpus[cpu].current == Some(step.idle)
  }

  /** A schedule call either dispatches the idle thread or uses up a slot of the CPU for good. */
  lemma TurnRoom(s: Sched, step: Step, cpu: nat)
    requires Enabled(s, step) && cpu < MAX_CPUS
    ensures Shape(Next(s, step))
    ensures RoomAbove(Next(s, step).cpus[cpu].levels, MAX_PRIORITY) == RoomAbove(s.cpus[cpu].levels, MAX_PRIORITY)
         - (if step.ScheduleStep? && step.cpu == cpu && !IdleTurn(s, step, cpu) then 1 else 0)
  {
    var s', levels := Next(s, step), s.cpus[cpu].levels;
    NextShape(s, step);
    if step.ScheduleStep? {
      var q := if step.cpu == cpu then ServedLevel(s, cpu, step.idle) else MAX_PRIORITY;
      forall r | 0 <= r < MAX_PRIORITY
        ensures s'.cpus[cpu].levels[r].head == levels[r].head + (if r == q then 1 else 0)
      {
        ScheduleLevels(s, step.cpu, step.idle, cpu, r);
      }
      RoomShrinks(levels, s'.cpus[cpu].levels, MAX_PRIORITY, q);
      if step.cpu == cpu { TurnOfIdle(s, cpu, step.idle); }
    }
  }

  /** The idle thread runs exactly when all queues of the CPU are empty. */
  lemma TurnOfIdle(s: Sched, cpu: nat, idle: Tid)
    requires Shape(s) && cpu < MAX_CPUS && idle !in s.threads
    ensures Shape(Schedule(s, cpu, idle))
    ensures Schedule(s, cpu, idle).cpus[cpu].current == Some(idle) <==> ServedLevel(s, cpu, idle) == MAX_PRIORITY
  {
    ScheduleShape(s, cpu, idle);
    RequeuedShape(WithIdle(s, idle), cpu);
  }

  /** Over any run, the schedule calls on a CPU that do not run the idle thread are exactly as many as the slots used up
      in its five queues. So there are never more of them than the sum of 64 - head over the queues; from then on every
      schedule call runs a new idle thread. */
  lemma {:induction false} CpuRunsDry(s: Sched, run: seq<Step>, cpu: nat)
    requires Shape(s) && IsRun(s, run) && cpu < MAX_CPUS
    ensures Shape(Final(s, run))
    ensures Schedules(run, cpu) == IdleTurns(s, run, cpu)
         + RoomAbove(s.cpus[cpu].levels, MAX_PRIORITY) - RoomAbove(Final(s, run).cpus[cpu].levels, MAX_PRIORITY)
    decreases |run|
  {
    if run != [] {
      TurnRoom(s, run[0], cpu);
      CpuRunsDry(Next(s, run[0]), run[1..], cpu);
    }
  }
}
