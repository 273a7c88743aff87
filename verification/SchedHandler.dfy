/** The timer handler: one ageing pass and one schedule call on the same CPU. Between its priorities and the places of
    the queued threads there is a balance that keeps the unsigned priorities from ever wrapping around. */
module SchedHandler {
  import opened SchedSpec
  import opened SchedSafety
  import SchedAgeing

  /** The time slice of a CPU runs out, and the thread of the new idle process is `idle`. */
  datatype Tick = Tick(cpu: nat, idle: Tid)

  ghost predicate Ready(s: Sched, tick: Tick) { Shape(s) && tick.cpu < MAX_CPUS && tick.idle !in s.threads }

  ghost function Handle(s: Sched, tick: Tick): (r: Sched)
    requires Ready(s, tick)
    ensures Shape(r)
  {
    ScheduleShape(Age(s, tick.cpu), tick.cpu, tick.idle);
    Schedule(Age(s, tick.cpu), tick.cpu, tick.idle)
  }

  ghost predicate IsTicks(s: Sched, ticks: seq<Tick>)
    decreases |ticks|
  {
    ticks == [] || (Ready(s, ticks[0]) && IsTicks(Handle(s, ticks[0]), ticks[1..]))
  }

  ghost function AfterTicks(s: Sched, ticks: seq<Tick>): (r: Sched)
    requires Shape(s) && IsTicks(s, ticks)
    ensures Shape(r)
    decreases |ticks|
  {
    if ticks == [] then s else AfterTicks(Handle(s, ticks[0]), ticks[1..])
  }

  // ----- The handler's runs are runs of its two calls -----

  function Calls(ticks: seq<Tick>): seq<Step> {
    if ticks == [] then []
    else [AgeStep(ticks[0].cpu), ScheduleStep(ticks[0].cpu, ticks[0].idle)] + Calls(ticks[1..])
  }

  /** So what holds of every run of schedule and ageThreads holds of the handler's. */
  lemma {:induction false} TicksAreRuns(s: Sched, ticks: seq<Tick>)
    requires Shape(s) && IsTicks(s, ticks)
    ensures IsRun(s, Calls(ticks)) && Final(s, Calls(ticks)) == AfterTicks(s, ticks)
    decreases |ticks|
  {
    if ticks != [] {
      var tick, run := ticks[0], Calls(ticks);
      var rest := run[1..];
      TicksAreRuns(Handle(s, tick), ticks[1..]);
      assert rest[0] == ScheduleStep(tick.cpu, tick.idle) && rest[1..] == Calls(ticks[1..]);
      assert IsRun(Age(s, tick.cpu), rest);
    }
  }

  lemma HandleInv(s: Sched, tick: Tick)
    requires Inv(s) && Ready(s, tick)
    ensures Inv(Age(s, tick.cpu)) && Inv(Handle(s, tick))
  {
    AgeInv(s, tick.cpu);
    ScheduleInv(Age(s, tick.cpu), tick.cpu, tick.idle);
  }

  // ----- The balance -----

  /** How often the queues above level p can still be served. Queue 0 gains no thread after the fill, the others can
      be filled up to their last slot. */
  ghost function Above(levels: seq<Level>, p: nat): nat
    requires p <= |levels| && LevelsOk(levels)
  {
    if p == 0 then 0
    else if p == 1 then Live(levels[0])
    else Above(levels, p - 1) + (MAX_RUNQUEUE_SIZE - levels[p - 1].head)
  }

  function Budget(p: nat): nat { 64 * p + 3 }

  /** A thread in slot k of level p has been aged 52 * (p - priority) + waitTicks times. Together with the schedule
      calls that can still come before its own, that is at most 64 * p + 3, and so less than the 52 * (p + 1) passes
      after which its priority would wrap. At the lowest level that is 259 against 260. */
  ghost predicate Paced(t: Thread, levels: seq<Level>, p: nat, k: nat, spare: nat)
    requires p < |levels| && LevelsOk(levels) && levels[p].head <= k
  {
    && t.dynamicPriority <= p && t.waitTicks <= AGE_THRESHOLD + 1
    && 52 * (p - t.dynamicPriority) + t.waitTicks + Above(levels, p) + (k - levels[p].head) + spare <= Budget(p)
  }

  ghost predicate QueuesPaced(s: Sched, c: nat, spare: nat)
    requires Shape(s) && c < MAX_CPUS
  {
    var levels := s.cpus[c].levels;
    && (forall k, t :: At(s, Slot(c, 0, k), t) ==> s.threads[t].dynamicPriority == 0)
    && (forall p, k, t :: p > 0 && At(s, Slot(c, p, k), t) ==> Paced(s.threads[t], levels, p, k, spare))
  }

  /** The queue that the running thread goes back to. */
  function NextLevel(t: Thread): nat { SlotLevel(Demoted(t)) }

  /** Queues 0 and 1 together hold hardly more threads than one of them has slots, and the running thread can go back
      to its queue without upsetting the balance. */
  ghost predicate CurrentPaced(s: Sched, c: nat)
    requires Shape(s) && c < MAX_CPUS
  {
    var levels, current := s.cpus[c].levels, s.cpus[c].current;
    && Live(levels[0]) + Live(levels[1]) <= Budget(1)
    && (current.Some? ==>
          var t := s.threads[current.value];
          t.waitTicks == 0 && Above(levels, NextLevel(t)) + Live(levels[NextLevel(t)]) <= Budget(NextLevel(t)))
  }

  ghost predicate Bounded(s: Sched) { forall t :: t in s.threads ==> s.threads[t].dynamicPriority < MAX_PRIORITY }

  /** The balance on every CPU. */
  ghost predicate Balance(s: Sched) {
    Inv(s) && Bounded(s) && forall c :: 0 <= c < MAX_CPUS ==> QueuesPaced(s, c, 1) && CurrentPaced(s, c)
  }

  // ----- Ageing -----

  /** One pass uses up the spare call. A priority that would wrap contradicts the balance. */
  lemma AgedPaced(t: Thread, levels: seq<Level>, p: nat, k: nat)
    requires 0 < p < |levels| == MAX_PRIORITY && LevelsOk(levels) && levels[p].head <= k
    requires t.state == Runnable && Paced(t, levels, p, k, 1)
    ensures Paced(Aged(t), levels, p, k, 0) && Aged(t).dynamicPriority <= t.dynamicPriority
  {
  }

  lemma AgeQueues(s: Sched, c: nat)
    requires Inv(s) && c < MAX_CPUS && QueuesPaced(s, c, 1)
    ensures Shape(Age(s, c)) && QueuesPaced(Age(s, c), c, 0)
  {
    var s' := Age(s, c);
    forall k, t | At(s', Slot(c, 0, k), t) ensures s'.threads[t].dynamicPriority == 0 {
      assert At(s, Slot(c, 0, k), t);
      SchedAgeing.AgeExact(s, c, t);
    }
    forall p, k, t | p > 0 && At(s', Slot(c, p, k), t) ensures Paced(s'.threads[t], s'.cpus[c].levels, p, k, 0) {
      assert At(s, Slot(c, p, k), t);
      SchedAgeing.AgeExact(s, c, t);
      AgedPaced(s.threads[t], s.cpus[c].levels, p, k);
    }
  }

  /** No thread's priority number goes up. */
  lemma AgeLowers(s: Sched, c: nat, t: Tid)
    requires Inv(s) && c < MAX_CPUS && QueuesPaced(s, c, 1) && t in s.threads
    ensures t in Age(s, c).threads && Age(s, c).threads[t].dynamicPriority <= s.threads[t].dynamicPriority
  {
    SchedAgeing.AgeExact(s, c, t);
    if p, k :| p > 0 && At(s, Slot(c, p, k), t) {
      AgedPaced(s.threads[t], s.cpus[c].levels, p, k);
    }
  }

  /** Nothing happens to the threads that are elsewhere. */
  lemma AgeElsewhere(s: Sched, c: nat, place: Place, t: Tid)
    requires Inv(s) && c < MAX_CPUS && At(s, place, t) && (place.Slot? ==> place.cpu != c)
    ensures t in Age(s, c).threads && Age(s, c).threads[t] == s.threads[t]
  {
    SchedAgeing.AgeExact(s, c, t);
  }

  // ----- Scheduling -----

  lemma {:induction false} AboveBound(levels: seq<Level>, p: nat)
    requires 0 < p <= |levels| && LevelsOk(levels)
    ensures Above(levels, p) <= Live(levels[0]) + 64 * (p - 1)
  {
    if p > 1 { AboveBound(levels, p - 1); }
  }

  /** Only the heads, and the live slots of queue 0, count. */
  lemma {:induction false} AboveServed(levels: seq<Level>, levels': seq<Level>, p: nat, q: nat)
    requires p <= |levels| == |levels'| && LevelsOk(levels) && LevelsOk(levels')
    requires forall r :: 0 < r < p ==> levels'[r].head == levels[r].head + (if r == q then 1 else 0)
    requires p > 0 ==> Live(levels'[0]) == Live(levels[0]) - (if q == 0 then 1 else 0)
    ensures Above(levels', p) == Above(levels, p) - (if q < p then 1 else 0)
  {
    if p > 1 { AboveServed(levels, levels', p - 1, q); }
  }

  ghost function Stopped(s: Sched, t: Tid): Sched
    requires t in s.threads
  {
    s.(threads := s.threads[t := Demoted(s.threads[t].(state := Runnable))])
  }

  /** The threads already queued stay as they are. */
  lemma QueuedPaced(s: Sched, c: nat, t: Tid, p: nat, k: nat, u: Tid)
    requires Inv(s) && c < MAX_CPUS && QueuesPaced(s, c, 0) && s.cpus[c].current == Some(t)
    requires Shape(Enqueue(Stopped(s, t), t, c)) && At(s, Slot(c, p, k), u)
    ensures var s' := Enqueue(Stopped(s, t), t, c);
      && At(s', Slot(c, p, k), u)
      && if p == 0 then s'.threads[u].dynamicPriority == 0 else Paced(s'.threads[u], s'.cpus[c].levels, p, k, 0)
  {
    var s', levels := Enqueue(Stopped(s, t), t, c), s.cpus[c].levels;
    assert At(s, On(c), t);
    EnqueueAt(Stopped(s, t), t, c, Slot(c, p, k), u);
    AboveServed(levels, s'.cpus[c].levels, p, MAX_PRIORITY);
  }

  lemma RunningPaced(s: Sched, c: nat, t: Tid, p: nat, k: nat, u: Tid)
    requires Inv(s) && Bounded(s) && c < MAX_CPUS && CurrentPaced(s, c) && s.cpus[c].current == Some(t)
    requires Shape(Enqueue(Stopped(s, t), t, c)) && !At(s, Slot(c, p, k), u)
    requires At(Enqueue(Stopped(s, t), t, c), Slot(c, p, k), u)
    ensures var s' := Enqueue(Stopped(s, t), t, c); p > 0 && Paced(s'.threads[u], s'.cpus[c].levels, p, k, 0)
  {
    var s', levels := Enqueue(Stopped(s, t), t, c), s.cpus[c].levels;
    EnqueueAt(Stopped(s, t), t, c, Slot(c, p, k), u);
    AboveServed(levels, s'.cpus[c].levels, p, MAX_PRIORITY);
  }

  lemma RequeuePaced(s: Sched, c: nat)
    requires Inv(s) && Bounded(s) && c < MAX_CPUS && QueuesPaced(s, c, 0) && CurrentPaced(s, c)
    ensures var s' := Requeued(s, c);
      && Shape(s') && Bounded(s') && QueuesPaced(s', c, 0)
      && var levels := s'.cpus[c].levels;
         Live(levels[0]) > 0 ==> Live(levels[0]) + Live(levels[1]) <= Budget(1) + 1
  {
    RequeuedShape(s, c);
    var current, s' := s.cpus[c].current, Requeued(s, c);
    if current.Some? {
      var t := current.value;
      assert At(s, On(c), t);
      assert s' == Enqueue(Stopped(s, t), t, c);
      forall p, k, u | At(s', Slot(c, p, k), u)
        ensures if p == 0 then s'.threads[u].dynamicPriority == 0 else Paced(s'.threads[u], s'.cpus[c].levels, p, k, 0)
      {
        if At(s, Slot(c, p, k), u) {
          QueuedPaced(s, c, t, p, k, u);
        } else {
          RunningPaced(s, c, t, p, k, u);
        }
      }
    }
  }

  /** A thread that stays queued has one call less before it. */
  lemma StaysPaced(s: Sched, c: nat, next: Tid, p: nat, k: nat, u: Tid)
    requires Shape(s) && c < MAX_CPUS && next in s.threads && QueuesPaced(s, c, 0) && Shape(Dequeue(s, c))
    requires forall place: Place :: place.Slot? ==> !At(Dequeue(s, c), place, next)
    requires At(Dispatch(Dequeue(s, c), c, next), Slot(c, p, k), u)
    ensures var s' := Dispatch(Dequeue(s, c), c, next);
      && Shape(s')
      && if p == 0 then s'.threads[u].dynamicPriority == 0 else Paced(s'.threads[u], s'.cpus[c].levels, p, k, 1)
  {
    var s', levels := Dispatch(Dequeue(s, c), c, next), s.cpus[c].levels;
    var q := FirstLevel(levels, 0);
    DispatchAt(Dequeue(s, c), c, next, Slot(c, p, k), u);
    DequeueAt(s, c, Slot(c, p, k), u);
    assert At(s, Slot(c, p, k), u);
    assert Live(levels[p]) > 0;
    assert q <= p;
    AboveServed(levels, s'.cpus[c].levels, p, q);
  }

  lemma PickPaced(s: Sched, c: nat, idle: Tid)
    requires Shape(s) && Bounded(s) && c < MAX_CPUS && QueuesPaced(s, c, 0) && Inv(Vacated(s, c))
    requires idle in s.threads && s.threads[idle].dynamicPriority == 0
    requires Dequeued(s, c).None? ==> InvBut(Vacated(s, c), Some(idle))
    requires var levels := s.cpus[c].levels;
      Live(levels[0]) > 0 ==> Live(levels[0]) + Live(levels[1]) <= Budget(1) + 1
    ensures Shape(Dequeue(s, c))
    ensures var next := Dequeued(s, c); var s' := Dispatch(Dequeue(s, c), c, if next.Some? then next.value else idle);
      Shape(s') && Bounded(s') && QueuesPaced(s', c, 1) && CurrentPaced(s', c)
  {
    DequeueShape(s, c);
    var next := if Dequeued(s, c).Some? then Dequeued(s, c).value else idle;
    var s', levels := Dispatch(Dequeue(s, c), c, next), s.cpus[c].levels;
    NextUnplaced(s, c, next);
    forall p, k, u | At(s', Slot(c, p, k), u)
      ensures if p == 0 then s'.threads[u].dynamicPriority == 0 else Paced(s'.threads[u], s'.cpus[c].levels, p, k, 1)
    {
      StaysPaced(s, c, next, p, k, u);
    }
    if Live(levels[0]) > 0 { assert At(s, Slot(c, 0, levels[0].head), next); }
    AboveBound(s'.cpus[c].levels, NextLevel(s'.threads[next]));
  }

  /** The thread that schedule is about to dispatch is in no queue any more. */
  lemma NextUnplaced(s: Sched, c: nat, next: Tid)
    requires Shape(s) && c < MAX_CPUS && Inv(Vacated(s, c)) && Shape(Dequeue(s, c))
    requires if Dequeued(s, c).Some? then next == Dequeued(s, c).value else InvBut(Vacated(s, c), Some(next))
    ensures forall place: Place :: place.Slot? ==> !At(Dequeue(s, c), place, next)
  {
    var v := Vacated(s, c);
    DequeueInv(v, c);
    assert Dequeue(v, c) == Vacated(Dequeue(s, c), c) && Dequeued(v, c) == Dequeued(s, c);
    forall place: Place | place.Slot? ensures !At(Dequeue(s, c), place, next) {
      VacatedAt(Dequeue(s, c), c, place, next);
      assert !At(Dequeue(v, c), place, next) by {
        assert !Placed(Dequeue(v, c), next);
      }
    }
  }

  // ----- The whole handler -----

  lemma SchedulePaced(s: Sched, c: nat, idle: Tid)
    requires Inv(s) && Bounded(s) && c < MAX_CPUS && idle !in s.threads && QueuesPaced(s, c, 0) && CurrentPaced(s, c)
    ensures var s' := Schedule(s, c, idle); Shape(s') && Bounded(s') && QueuesPaced(s', c, 1) && CurrentPaced(s', c)
  {
    var s1 := WithIdle(s, idle);
    IdleInv(s, idle);
    IdlePaced(s, c, idle);
    var s2 := Requeued(s1, c);
    RequeuedInv(s1, c);
    RequeuePaced(s1, c);
    IdleKept(s1, c, idle);
    if Dequeued(s2, c).None? { IdleUnplaced(s1, c, idle); }
    PickPaced(s2, c, idle);
  }

  lemma IdlePaced(s: Sched, c: nat, idle: Tid)
    requires Inv(s) && Bounded(s) && c < MAX_CPUS && idle !in s.threads && QueuesPaced(s, c, 0) && CurrentPaced(s, c)
    ensures var s1 := WithIdle(s, idle);
      Shape(s1) && Bounded(s1) && QueuesPaced(s1, c, 0) && CurrentPaced(s1, c)
  {
    var s1 := WithIdle(s, idle);
    forall p, k, u | At(s1, Slot(c, p, k), u)
      ensures if p == 0 then s1.threads[u].dynamicPriority == 0 else Paced(s1.threads[u], s1.cpus[c].levels, p, k, 0)
    {
      assert At(s, Slot(c, p, k), u);
    }
  }

  lemma IdleKept(s: Sched, c: nat, idle: Tid)
    requires Inv(s) && c < MAX_CPUS && idle in s.threads && !Placed(s, idle)
    ensures idle in Requeued(s, c).threads && Requeued(s, c).threads[idle] == s.threads[idle]
  {
    if s.cpus[c].current.Some? { assert At(s, On(c), s.cpus[c].current.value); }
  }

  lemma RequeuedElsewhere(s: Sched, c: nat, place: Place, u: Tid)
    requires Inv(s) && c < MAX_CPUS && At(s, place, u) && place.cpu != c
    ensures At(Requeued(s, c), place, u) && u in Requeued(s, c).threads && Requeued(s, c).threads[u] == s.threads[u]
  {
    var current := s.cpus[c].current;
    if current.Some? {
      assert At(s, On(c), current.value);
      EnqueueAt(Stopped(s, current.value), current.value, c, place, u);
    }
  }

  lemma PickElsewhere(s: Sched, c: nat, idle: Tid, place: Place, u: Tid)
    requires Shape(s) && c < MAX_CPUS && Inv(Vacated(s, c)) && idle in s.threads && u != idle
    requires At(s, place, u) && place.cpu != c && u in s.threads
    ensures var next := Dequeued(s, c); var s' := Dispatch(Dequeue(s, c), c, if next.Some? then next.value else idle);
      u in s'.threads && s'.threads[u] == s.threads[u]
  {
    VacatedAt(s, c, place, u);
    var levels := s.cpus[c].levels;
    var q := FirstLevel(levels, 0);
    if q < MAX_PRIORITY {
      assert At(Vacated(s, c), Slot(c, q, levels[q].head), levels[q].accepted[levels[q].head]);
    }
  }

  /** schedule leaves the threads on the other CPUs alone. */
  lemma ScheduleElsewhere(s: Sched, c: nat, idle: Tid, place: Place, u: Tid)
    requires Inv(s) && c < MAX_CPUS && idle !in s.threads && At(s, place, u) && place.cpu != c
    ensures u in Schedule(s, c, idle).threads && Schedule(s, c, idle).threads[u] == s.threads[u]
  {
    var s1 := WithIdle(s, idle);
    IdleInv(s, idle);
    assert u in s.threads && At(s1, place, u);
    RequeuedInv(s1, c);
    RequeuedElsewhere(s1, c, place, u);
    RequeuedShape(s1, c);
    PickElsewhere(Requeued(s1, c), c, idle, place, u);
  }

  /** The handler keeps the balance. */
  lemma HandleBalance(s: Sched, tick: Tick)
    requires Balance(s) && Ready(s, tick)
    ensures Balance(Handle(s, tick))
  {
    var c := tick.cpu;
    var aged := Age(s, c);
    HandleInv(s, tick);
    AgeQueues(s, c);
    forall t | t in s.threads ensures aged.threads[t].dynamicPriority <= s.threads[t].dynamicPriority {
      AgeLowers(s, c, t);
    }
    if s.cpus[c].current.Some? { AgeElsewhere(s, c, On(c), s.cpus[c].current.value); }
    SchedulePaced(aged, c, tick.idle);
    forall d | 0 <= d < MAX_CPUS && d != c
      ensures QueuesPaced(Handle(s, tick), d, 1) && CurrentPaced(Handle(s, tick), d)
    {
      ElsewherePaced(s, tick, d);
    }
  }

  lemma ElsewherePaced(s: Sched, tick: Tick, d: nat)
    requires Balance(s) && Ready(s, tick) && d < MAX_CPUS && d != tick.cpu
    ensures QueuesPaced(Handle(s, tick), d, 1) && CurrentPaced(Handle(s, tick), d)
  {
    var s', aged := Handle(s, tick), Age(s, tick.cpu);
    HandleInv(s, tick);
    OtherCpus(aged, tick, d);
    forall place, u | At(s, place, u) && place.cpu == d
      ensures u in s.threads && u in s'.threads && s'.threads[u] == s.threads[u]
    {
      assert At(aged, place, u);
      AgeElsewhere(s, tick.cpu, place, u);
      ScheduleElsewhere(aged, tick.cpu, tick.idle, place, u);
    }
    CarryPaced(s, s', d);
  }

  lemma OtherCpus(s: Sched, tick: Tick, d: nat)
    requires Shape(s) && tick.cpu < MAX_CPUS && tick.idle !in s.threads && d < MAX_CPUS && d != tick.cpu
    ensures |Schedule(s, tick.cpu, tick.idle).cpus| == MAX_CPUS
    ensures Schedule(s, tick.cpu, tick.idle).cpus[d] == s.cpus[d]
  {
    ScheduleShape(s, tick.cpu, tick.idle);
  }

  lemma CarryPaced(s: Sched, s': Sched, d: nat)
    requires Shape(s) && Shape(s') && d < MAX_CPUS && s'.cpus[d] == s.cpus[d]
    requires QueuesPaced(s, d, 1) && CurrentPaced(s, d)
    requires forall place, u :: At(s, place, u) && place.cpu == d ==>
               u in s.threads && u in s'.threads && s'.threads[u] == s.threads[u]
    ensures QueuesPaced(s', d, 1) && CurrentPaced(s', d)
  {
    forall p, k, u | At(s', Slot(d, p, k), u) ensures At(s, Slot(d, p, k), u) && s'.threads[u] == s.threads[u] {
      assert At(s, Slot(d, p, k), u);
    }
    if s.cpus[d].current.Some? { assert At(s, On(d), s.cpus[d].current.value); }
  }

  lemma {:induction false} TicksBalance(s: Sched, ticks: seq<Tick>)
    requires Balance(s) && IsTicks(s, ticks)
    ensures Balance(AfterTicks(s, ticks))
    decreases |ticks|
  {
    if ticks != [] {
      HandleBalance(s, ticks[0]);
      TicksBalance(Handle(s, ticks[0]), ticks[1..]);
    }
  }
}
