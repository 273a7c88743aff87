/** From boot to the fill of the queues and beyond: timer handlers that run before the fill, the fill, and the balance
    it leaves behind. */
module SchedBoot {
  import opened SchedSpec
  import opened SchedSafety
  import opened SchedFill
  import opened SchedHandler
  import SchedAgeing

  // ----- Before the fill -----

  /** Nothing queued or running, and thread structures as the creators leave them: zeroed but for the state. */
  ghost predicate Boot(s: Sched) {
    Initial(s) && forall t :: t in s.threads ==> s.threads[t].dynamicPriority == 0 && s.threads[t].waitTicks == 0
  }

  /** Before the fill: the queues are empty, and only threads that have run have another priority than 0. */
  ghost predicate Quiet(s: Sched) {
    && Inv(s) && Bounded(s)
    && (forall c, p :: 0 <= c < MAX_CPUS && 0 <= p < MAX_PRIORITY ==> Live(s.cpus[c].levels[p]) == 0)
    && (forall c, t :: At(s, On(c), t) ==> s.threads[t].waitTicks == 0)
    && (forall t :: t in s.threads && t !in s.offered && !RunningOn(s, t) ==> s.threads[t].dynamicPriority == 0)
  }

  lemma BootQuiet(s: Sched)
    requires Boot(s)
    ensures Quiet(s) && forall ncpus :: Early(s, ncpus)
  {
    InitialFilling(s);
  }

  function Used(l: Level): nat { |l.accepted| }

  /** The running thread goes back to its queue, if that has a slot, and is then the only one there. */
  lemma QuietRequeue(s: Sched, c: nat, idle: Tid, t: Tid)
    requires Quiet(s) && c < MAX_CPUS && idle !in s.threads && s.cpus[c].current == Some(t) && t in s.threads
    ensures var s', q := Requeued(WithIdle(s, idle), c), NextLevel(s.threads[t]);
      && Shape(s') && 0 < q < MAX_PRIORITY && s'.cpus[c].current == Some(t) && t != idle
      && s'.threads == s.threads[idle := Fresh()][t := Demoted(s.threads[t].(state := Runnable))]
      && Demoted(s.threads[t]).dynamicPriority == q && s.threads[t].waitTicks == 0
      && var l, levels' := s.cpus[c].levels[q], s'.cpus[c].levels;
         && (forall p :: 0 <= p < MAX_PRIORITY && p != q ==> levels'[p] == s.cpus[c].levels[p])
         && if Used(l) < MAX_RUNQUEUE_SIZE
            then && levels'[q] == l.(accepted := l.accepted + [t]) && s'.dropped == s.dropped - {t}
                 && FirstLevel(levels', 0) == q
            else levels'[q] == l && s'.dropped == s.dropped + {t} && FirstLevel(levels', 0) == MAX_PRIORITY
  {
    assert At(s, On(c), t);
    RequeuedShape(WithIdle(s, idle), c);
  }

  /** In a quiet state a schedule call takes the running thread up again, or, if its queue is used up, the new idle
      thread. */
  lemma QuietNext(s: Sched, c: nat, idle: Tid)
    requires Quiet(s) && c < MAX_CPUS && idle !in s.threads
    ensures var s1 := WithIdle(s, idle);
      && Shape(Requeued(s1, c))
      && (Dequeued(Requeued(s1, c), c).Some? ==> Dequeued(Requeued(s1, c), c) == s.cpus[c].current)
      && forall p :: 0 <= p < MAX_PRIORITY ==> Live(Schedule(s, c, idle).cpus[c].levels[p]) == 0
  {
    RequeuedShape(WithIdle(s, idle), c);
    ScheduleShape(s, c, idle);
    if s.cpus[c].current.Some? {
      assert At(s, On(c), s.cpus[c].current.value);
      QuietRequeue(s, c, idle, s.cpus[c].current.value);
    }
  }

  /** Only the running thread and the new one change. */
  lemma QuietThread(s: Sched, c: nat, idle: Tid, u: Tid)
    requires Quiet(s) && c < MAX_CPUS && idle !in s.threads && u in Schedule(s, c, idle).threads
    ensures var s' := Schedule(s, c, idle);
      if s.cpus[c].current == Some(u) then u in s'.offered && s'.threads[u].dynamicPriority < MAX_PRIORITY
      else if u == idle then s'.threads[u].dynamicPriority == 0
      else u in s.threads && s'.threads[u] == s.threads[u]
  {
    QuietNext(s, c, idle);
    if s.cpus[c].current.Some? { assert At(s, On(c), s.cpus[c].current.value); }
  }

  lemma QuietAge(s: Sched, c: nat)
    requires Quiet(s) && c < MAX_CPUS
    ensures Age(s, c) == s
  {
    AgeInv(s, c);
    forall t | t in s.threads ensures Age(s, c).threads[t] == s.threads[t] { SchedAgeing.AgeExact(s, c, t); }
    assert Age(s, c).threads == s.threads;
  }

  lemma QuietTick(s: Sched, tick: Tick)
    requires Quiet(s) && Ready(s, tick)
    ensures Quiet(Handle(s, tick))
  {
    var c, idle, s' := tick.cpu, tick.idle, Handle(s, tick);
    QuietAge(s, c);
    HandleInv(s, tick);
    QuietNext(s, c, idle);
    StepHistory(s, ScheduleStep(c, idle));
    forall u | u in s'.threads
      ensures s'.threads[u].dynamicPriority < MAX_PRIORITY
      ensures u !in s'.offered && !RunningOn(s', u) ==> s'.threads[u].dynamicPriority == 0
    {
      QuietThread(s, c, idle, u);
      if RunningOn(s, u) && s.cpus[c].current != Some(u) {
        var d :| At(s, On(d), u);
        OtherCpus(s, tick, d);
        assert At(s', On(d), u);
      }
    }
    forall d | 0 <= d < MAX_CPUS && d != c ensures s'.cpus[d] == s.cpus[d] { OtherCpus(s, tick, d); }
    forall d, u | At(s', On(d), u) ensures s'.threads[u].waitTicks == 0 {
      if d != c {
        assert At(s, On(d), u);
        ScheduleElsewhere(s, c, idle, On(d), u);
      }
    }
  }

  lemma {:induction false} QuietTicks(s: Sched, ticks: seq<Tick>)
    requires Quiet(s) && IsTicks(s, ticks)
    ensures Quiet(AfterTicks(s, ticks))
    decreases |ticks|
  {
    if ticks != [] {
      QuietTick(s, ticks[0]);
      QuietTicks(Handle(s, ticks[0]), ticks[1..]);
    }
  }

  /** How many time slices end on a CPU. */
  function Slices(ticks: seq<Tick>, c: nat): nat {
    if ticks == [] then 0 else (if ticks[0].cpu == c then 1 else 0) + Slices(ticks[1..], c)
  }

  ghost predicate RoomFor(s: Sched, ticks: seq<Tick>) {
    Shape(s) && forall c, p :: 0 <= c < MAX_CPUS && 0 <= p < MAX_PRIORITY ==>
      Used(s.cpus[c].levels[p]) + Slices(ticks, c) <= MAX_RUNQUEUE_SIZE
  }

  /** Each slice uses up one slot at most. */
  lemma TickRoom(s: Sched, ticks: seq<Tick>)
    requires Quiet(s) && ticks != [] && Ready(s, ticks[0]) && RoomFor(s, ticks) && s.dropped == {}
    ensures RoomFor(Handle(s, ticks[0]), ticks[1..]) && Handle(s, ticks[0]).dropped == {}
  {
    var c, idle, s' := ticks[0].cpu, ticks[0].idle, Handle(s, ticks[0]);
    QuietAge(s, c);
    assert Used(s.cpus[c].levels[1]) < MAX_RUNQUEUE_SIZE;
    if s.cpus[c].current.Some? {
      var t := s.cpus[c].current.value;
      assert At(s, On(c), t);
      assert Used(s.cpus[c].levels[NextLevel(s.threads[t])]) < MAX_RUNQUEUE_SIZE;
      QuietTurn(s, c, idle, t);
    } else {
      QuietStart(s, c, idle);
    }
    forall d | 0 <= d < MAX_CPUS && d != c ensures s'.cpus[d] == s.cpus[d] { OtherCpus(s, ticks[0], d); }
  }

  /** Up to 64 slices on each CPU before the fill drop no thread. */
  lemma {:induction false} EarlyTicks(s: Sched, ticks: seq<Tick>)
    requires Quiet(s) && IsTicks(s, ticks) && RoomFor(s, ticks) && s.dropped == {}
    ensures AfterTicks(s, ticks).dropped == {}
    decreases |ticks|
  {
    if ticks != [] {
      QuietTick(s, ticks[0]);
      TickRoom(s, ticks);
      EarlyTicks(Handle(s, ticks[0]), ticks[1..]);
    }
  }

  lemma EarlyBoot(boot: Sched, early: seq<Tick>)
    requires Boot(boot) && IsTicks(boot, early) && forall c :: 0 <= c < MAX_CPUS ==> Slices(early, c) <= 64
    ensures AfterTicks(boot, early).dropped == {}
  {
    BootQuiet(boot);
    EarlyTicks(boot, early);
  }

  // ----- Slices before the fill -----

  /** The slots of queue 4 are used up, and so are those of queue p and all the queues between. */
  ghost predicate UsedUp(s: Sched, c: nat, p: nat) {
    && Shape(s) && c < MAX_CPUS && 0 < p < MAX_PRIORITY
    && Used(s.cpus[c].levels[4]) == MAX_RUNQUEUE_SIZE
    && (p < 4 ==> forall r :: 0 < r < 4 ==> Used(s.cpus[c].levels[r]) == MAX_RUNQUEUE_SIZE)
  }

  /** Before the fill the only thread of a CPU goes down through the queues and stays at the last until its slots are
      used up. Then another one takes its place, and so on: the queues 1 to 3 are used in turn, and no second round
      begins before queue 4 is used up. */
  ghost predicate InRounds(s: Sched, c: nat)
    requires Shape(s) && c < MAX_CPUS
  {
    var levels, current := s.cpus[c].levels, s.cpus[c].current;
    if current.None? then forall p :: 0 <= p < MAX_PRIORITY ==> Used(levels[p]) == 0
    else
      var prio := s.threads[current.value].dynamicPriority;
      && Used(levels[1]) == Used(levels[2]) + (if prio == 1 then 1 else 0)
      && Used(levels[1]) == Used(levels[3]) + (if prio == 1 || prio == 2 then 1 else 0)
      && (Used(levels[1]) > (if prio == 0 then 0 else 1) ==> Used(levels[4]) == MAX_RUNQUEUE_SIZE)
  }

  /** A dropped thread has not waited, and leaves a CPU behind whose queues are used up. */
  ghost predicate DropsExplained(s: Sched, ncpus: nat) {
    Shape(s) && forall t :: t in s.dropped ==>
      && t in s.threads && s.threads[t].waitTicks == 0
      && exists d: nat :: d < ncpus && UsedUp(s, d, s.threads[t].dynamicPriority)
  }

  ghost predicate Early(s: Sched, ncpus: nat) {
    Quiet(s) && DropsExplained(s, ncpus) && forall c :: 0 <= c < MAX_CPUS ==> InRounds(s, c)
  }

  /** What a schedule call does in a quiet state, if the CPU runs the thread t: it takes up t again, or drops it. */
  lemma QuietTurn(s: Sched, c: nat, idle: Tid, t: Tid)
    requires Quiet(s) && c < MAX_CPUS && idle !in s.threads && s.cpus[c].current == Some(t) && t in s.threads
    ensures var s', q := Schedule(s, c, idle), NextLevel(s.threads[t]);
      var levels, levels' := s.cpus[c].levels, s'.cpus[c].levels;
      && 0 < q < MAX_PRIORITY && t in s'.threads
      && (forall p :: 0 <= p < MAX_PRIORITY && p != q ==> Used(levels'[p]) == Used(levels[p]))
      && s'.threads[t].waitTicks == 0 && s'.threads[t].dynamicPriority == q
      && if Used(levels[q]) < MAX_RUNQUEUE_SIZE
         then s'.cpus[c].current == Some(t) && Used(levels'[q]) == Used(levels[q]) + 1 && s'.dropped == s.dropped - {t}
         else && s'.cpus[c].current == Some(idle) && idle in s'.threads && s'.threads[idle].dynamicPriority == 0
              && Used(levels'[q]) == Used(levels[q]) && s'.dropped == s.dropped + {t}
  {
    QuietRequeue(s, c, idle, t);
    ScheduleShape(s, c, idle);
  }

  /** If it runs none, the new idle thread starts. */
  lemma QuietStart(s: Sched, c: nat, idle: Tid)
    requires Quiet(s) && c < MAX_CPUS && idle !in s.threads && s.cpus[c].current.None?
    ensures var s' := Schedule(s, c, idle);
      && s'.cpus[c].current == Some(idle) && idle in s'.threads && s'.threads[idle].dynamicPriority == 0
      && s'.cpus[c].levels == s.cpus[c].levels && s'.dropped == s.dropped
  {
    QuietNext(s, c, idle);
  }

  lemma RoundGoesOn(s: Sched, tick: Tick)
    requires Quiet(s) && Ready(s, tick) && InRounds(s, tick.cpu)
    ensures InRounds(Handle(s, tick), tick.cpu)
  {
    var c, current := tick.cpu, s.cpus[tick.cpu].current;
    QuietAge(s, c);
    if current.Some? {
      QuietTurn(s, c, tick.idle, current.value);
    } else {
      QuietStart(s, c, tick.idle);
    }
  }

  /** The thread that is dropped explains itself. */
  lemma DropExplained(s: Sched, tick: Tick, t: Tid)
    requires Quiet(s) && Ready(s, tick) && InRounds(s, tick.cpu) && s.cpus[tick.cpu].current == Some(t)
    requires t in Handle(s, tick).dropped
    ensures t in Handle(s, tick).threads && Handle(s, tick).threads[t].waitTicks == 0
    ensures UsedUp(Handle(s, tick), tick.cpu, Handle(s, tick).threads[t].dynamicPriority)
  {
    QuietAge(s, tick.cpu);
    assert At(s, On(tick.cpu), t) && Placed(s, t);
    QuietTurn(s, tick.cpu, tick.idle, t);
    FullRound(s, tick.cpu, t);
    UsedUpStays(s, tick, tick.cpu, NextLevel(s.threads[t]));
  }

  /** When a thread finds its queue used up, then queue 4 is, and with any of the queues 1 to 3 all of them are. */
  lemma FullRound(s: Sched, c: nat, t: Tid)
    requires Quiet(s) && c < MAX_CPUS && InRounds(s, c) && s.cpus[c].current == Some(t) && t in s.threads
    requires Used(s.cpus[c].levels[NextLevel(s.threads[t])]) == MAX_RUNQUEUE_SIZE
    ensures UsedUp(s, c, NextLevel(s.threads[t]))
  {
  }

  lemma UsedUpStays(s: Sched, tick: Tick, d: nat, p: nat)
    requires Quiet(s) && Ready(s, tick) && UsedUp(s, d, p)
    ensures UsedUp(Handle(s, tick), d, p)
  {
    var c, current := tick.cpu, s.cpus[tick.cpu].current;
    QuietAge(s, c);
    if d != c {
      OtherCpus(s, tick, d);
    } else if current.Some? {
      QuietTurn(s, c, tick.idle, current.value);
    } else {
      QuietStart(s, c, tick.idle);
    }
  }

  lemma OldDropExplained(s: Sched, tick: Tick, ncpus: nat, t: Tid)
    requires Quiet(s) && DropsExplained(s, ncpus) && Ready(s, tick) && t in Handle(s, tick).dropped
    requires s.cpus[tick.cpu].current != Some(t)
    ensures t in Handle(s, tick).threads && Handle(s, tick).threads[t].waitTicks == 0
    ensures exists d: nat :: d < ncpus && UsedUp(Handle(s, tick), d, Handle(s, tick).threads[t].dynamicPriority)
  {
    var c, idle, current := tick.cpu, tick.idle, s.cpus[tick.cpu].current;
    QuietAge(s, c);
    if current.Some? {
      QuietTurn(s, c, idle, current.value);
    } else {
      QuietStart(s, c, idle);
    }
    assert t in s.dropped && t in s.threads;
    QuietThread(s, c, idle, t);
    var d: nat :| d < ncpus && UsedUp(s, d, s.threads[t].dynamicPriority);
    UsedUpStays(s, tick, d, s.threads[t].dynamicPriority);
  }

  lemma EarlyTick(s: Sched, tick: Tick, ncpus: nat)
    requires Early(s, ncpus) && Ready(s, tick) && tick.cpu < ncpus
    ensures Early(Handle(s, tick), ncpus)
  {
    var c, s' := tick.cpu, Handle(s, tick);
    QuietTick(s, tick);
    forall t | t in s'.dropped
      ensures t in s'.threads && s'.threads[t].waitTicks == 0
      ensures exists d: nat :: d < ncpus && UsedUp(s', d, s'.threads[t].dynamicPriority)
    {
      if s.cpus[c].current == Some(t) {
        DropExplained(s, tick, t);
      } else {
        OldDropExplained(s, tick, ncpus, t);
      }
    }
    forall d | 0 <= d < MAX_CPUS ensures InRounds(s', d) {
      if d == c { RoundGoesOn(s, tick); } else { RoundElsewhere(s, tick, d); }
    }
  }

  lemma RoundElsewhere(s: Sched, tick: Tick, d: nat)
    requires Quiet(s) && Ready(s, tick) && d < MAX_CPUS && d != tick.cpu && InRounds(s, d)
    ensures InRounds(Handle(s, tick), d)
  {
    QuietAge(s, tick.cpu);
    OtherCpus(s, tick, d);
    if s.cpus[d].current.Some? {
      assert At(s, On(d), s.cpus[d].current.value);
      ScheduleElsewhere(s, tick.cpu, tick.idle, On(d), s.cpus[d].current.value);
    }
  }

  lemma {:induction false} EarlyRun(s: Sched, ticks: seq<Tick>, ncpus: nat)
    requires Early(s, ncpus) && IsTicks(s, ticks) && forall tick <- ticks :: tick.cpu < ncpus
    ensures Early(AfterTicks(s, ticks), ncpus)
    decreases |ticks|
  {
    if ticks != [] {
      EarlyTick(s, ticks[0], ncpus);
      EarlyRun(Handle(s, ticks[0]), ticks[1..], ncpus);
    }
  }

  // ----- The fill -----

  /** Every thread that the fill can offer either goes to queue 0 or finds its queue on CPU d used up. */
  ghost predicate Narrow(s: Sched, d: nat) {
    Shape(s) && d < MAX_CPUS && forall t :: t in s.threads && s.threads[t].state == Runnable ==>
      SlotLevel(s.threads[t]) == 0 || Used(s.cpus[d].levels[SlotLevel(s.threads[t])]) == MAX_RUNQUEUE_SIZE
  }

  /** A thread that can be offered has never run, or was dropped. */
  lemma CanBeOffered(s: Sched, ncpus: nat, t: Tid)
    requires Early(s, ncpus) && t in s.threads && s.threads[t].state == Runnable
    ensures !Placed(s, t) && s.threads[t].dynamicPriority < MAX_PRIORITY
    ensures t in s.dropped || s.threads[t].dynamicPriority == 0
  {
    forall place ensures !At(s, place, t) { }
    assert !RunningOn(s, t);
  }

  /** There is such a CPU: one whose queues are all used up, or else one whose queue 4 is. */
  lemma SomeNarrow(s: Sched, ncpus: nat) returns (d: nat)
    requires Early(s, ncpus) && 0 < ncpus <= MAX_CPUS
    ensures d < ncpus && Narrow(s, d)
  {
    d := 0;
    if t :| t in s.dropped && s.threads[t].dynamicPriority < 4 {
      d :| d < ncpus && UsedUp(s, d, s.threads[t].dynamicPriority);
    } else if t :| t in s.dropped {
      d :| d < ncpus && UsedUp(s, d, s.threads[t].dynamicPriority);
    }
    UsedUpNarrow(s, ncpus, d);
  }

  lemma UsedUpNarrow(s: Sched, ncpus: nat, d: nat)
    requires Early(s, ncpus) && d < MAX_CPUS
    requires || s.dropped == {} || UsedUp(s, d, 1)
             || (UsedUp(s, d, 4) && forall t :: t in s.dropped ==> s.threads[t].dynamicPriority >= 4)
    ensures Narrow(s, d)
  {
    forall t | t in s.threads && s.threads[t].state == Runnable
      ensures SlotLevel(s.threads[t]) == 0 || Used(s.cpus[d].levels[SlotLevel(s.threads[t])]) == MAX_RUNQUEUE_SIZE
    {
      CanBeOffered(s, ncpus, t);
    }
  }

  /** f has the threads and current threads of s, and its queued threads are at their level and have not waited. */
  ghost predicate OnlyFilled(s: Sched, f: Sched) {
    && Shape(s) && Shape(f) && f.threads == s.threads
    && (forall c :: 0 <= c < MAX_CPUS ==> f.cpus[c].current == s.cpus[c].current)
    && (forall c, p, k, t :: At(f, Slot(c, p, k), t) ==>
          SlotLevel(f.threads[t]) == p && (p > 0 ==> f.threads[t].waitTicks == 0))
  }

  /** The CPUs that are not in use got nothing, and the CPU d only threads for queue 0. */
  ghost predicate NarrowFilled(s: Sched, f: Sched, ncpus: nat, d: nat) {
    && Shape(s) && Shape(f) && d < MAX_CPUS
    && (forall c :: ncpus <= c < MAX_CPUS ==> f.cpus[c] == s.cpus[c])
    && forall p :: 0 < p < MAX_PRIORITY ==> f.cpus[d].levels[p] == s.cpus[d].levels[p]
  }

  /** Of the threads ts the runnable ones were offered, and no other thread was queued. */
  ghost predicate OffersOf(f: Sched, ts: seq<Tid>) {
    && (forall place: Place, t :: place.Slot? && At(f, place, t) ==> t in ts)
    && (forall t <- ts :: t in f.threads && f.threads[t].state == Runnable ==> t in f.offered)
  }

  /** f is the state s after the offers of ts. */
  ghost predicate Filled(s: Sched, f: Sched, ts: seq<Tid>, ncpus: nat, d: nat) {
    && Inv(f) && OnlyFilled(s, f) && NarrowFilled(s, f, ncpus, d) && OffersOf(f, ts) && Balanced(f, ncpus)
  }

  lemma OfferOnly(s: Sched, f: Sched, t: Tid, cpu: nat)
    requires OnlyFilled(s, f) && cpu < MAX_CPUS && t in f.threads
    requires SlotLevel(f.threads[t]) > 0 ==> f.threads[t].waitTicks == 0
    ensures OnlyFilled(s, Enqueue(f, t, cpu))
  {
    var f' := Enqueue(f, t, cpu);
    EnqueueShape(f, t, cpu);
    forall c, p, k, u | At(f', Slot(c, p, k), u)
      ensures SlotLevel(f'.threads[u]) == p && (p > 0 ==> f'.threads[u].waitTicks == 0)
    {
      EnqueueAt(f, t, cpu, Slot(c, p, k), u);
    }
  }

  lemma OfferNarrow(s: Sched, f: Sched, t: Tid, cpu: nat, ncpus: nat, d: nat)
    requires Narrow(s, d) && NarrowFilled(s, f, ncpus, d) && f.threads == s.threads
    requires cpu < ncpus <= MAX_CPUS && t in f.threads && f.threads[t].state == Runnable
    ensures NarrowFilled(s, Enqueue(f, t, cpu), ncpus, d)
  {
    EnqueueShape(f, t, cpu);
  }

  lemma OfferOffers(f: Sched, ts: seq<Tid>, t: Tid, cpu: nat)
    requires Shape(f) && OffersOf(f, ts) && cpu < MAX_CPUS && t in f.threads
    ensures OffersOf(Enqueue(f, t, cpu), ts + [t])
  {
    var f' := Enqueue(f, t, cpu);
    forall place: Place, u | place.Slot? && At(f', place, u) ensures u in ts + [t] { EnqueueAt(f, t, cpu, place, u); }
  }

  lemma OfferUnplaced(s: Sched, f: Sched, ts: seq<Tid>, ncpus: nat, t: Tid)
    requires Early(s, ncpus) && OnlyFilled(s, f) && OffersOf(f, ts) && t in s.threads && t !in ts
    requires s.threads[t].state == Runnable
    ensures !Placed(f, t) && (SlotLevel(f.threads[t]) > 0 ==> f.threads[t].waitTicks == 0)
  {
    CanBeOffered(s, ncpus, t);
    forall place ensures !At(f, place, t) {
      assert At(f, place, t) && place.On? ==> At(s, place, t);
    }
  }

  lemma OfferFilled(s: Sched, f: Sched, ts: seq<Tid>, ncpus: nat, d: nat, t: Tid)
    requires Early(s, ncpus) && Narrow(s, d) && Filled(s, f, ts, ncpus, d)
    requires 0 < ncpus <= MAX_CPUS && t in s.threads && t !in ts
    ensures Filled(s, EnqueueIfRunnable(f, t, LeastLoaded(f, ncpus)), ts + [t], ncpus, d)
  {
    var cpu := LeastLoaded(f, ncpus);
    FirstLeast(f, ncpus);
    if f.threads[t].state == Runnable {
      OfferUnplaced(s, f, ts, ncpus, t);
      OfferInv(f, t, cpu);
      OfferOnly(s, f, t, cpu);
      OfferNarrow(s, f, t, cpu, ncpus, d);
      OfferOffers(f, ts, t, cpu);
      OfferBalanced(f, t, ncpus);
    }
  }

  lemma EarlyFilled(s: Sched, ncpus: nat, d: nat)
    requires Early(s, ncpus) && d < MAX_CPUS
    ensures Filled(s, s, [], ncpus, d)
  {
    forall c | 0 <= c < MAX_CPUS ensures s.cpus[c].load == 0 { NoLoad(s.cpus[c].levels, 0); }
  }

  lemma {:induction false} NoLoad(levels: seq<Level>, p: nat)
    requires p <= |levels| && LevelsOk(levels) && forall r :: p <= r < |levels| ==> Live(levels[r]) == 0
    ensures LiveFrom(levels, p) == 0
    decreases |levels| - p
  {
    if p < |levels| { NoLoad(levels, p + 1); }
  }

  lemma {:induction false} FillFilled(s: Sched, ts: seq<Tid>, ncpus: nat, d: nat)
    requires Early(s, ncpus) && Narrow(s, d) && 0 < ncpus <= MAX_CPUS && (forall t <- ts :: t in s.threads)
    requires forall i, j :: 0 <= i < j < |ts| ==> ts[i] != ts[j]
    ensures Filled(s, Fill(s, ts, ncpus), ts, ncpus, d)
    decreases |ts|
  {
    if ts == [] {
      EarlyFilled(s, ncpus, d);
    } else {
      var n := |ts| - 1;
      assert ts == ts[..n] + [ts[n]];
      FillFilled(s, ts[..n], ncpus, d);
      FillOneMore(s, ts[..n], ts[n], ncpus);
      OfferFilled(s, Fill(s, ts[..n], ncpus), ts[..n], ncpus, d, ts[n]);
    }
  }

  // ----- The balance after the fill -----

  lemma {:induction false} LiveParts(levels: seq<Level>, p: nat, q: nat)
    requires q <= p < |levels| && LevelsOk(levels)
    ensures Live(levels[p]) <= LiveFrom(levels, q)
    ensures q < p ==> Live(levels[q]) + Live(levels[p]) <= LiveFrom(levels, q)
    decreases |levels| - q
  {
    if q < p { LiveParts(levels, p, q + 1); }
  }

  /** The narrow CPU has 64 threads at most, and so no CPU has more than 65. */
  lemma FillLoads(s: Sched, f: Sched, ts: seq<Tid>, ncpus: nat, d: nat, c: nat)
    requires Early(s, ncpus) && Filled(s, f, ts, ncpus, d) && d < ncpus <= MAX_CPUS && c < MAX_CPUS
    ensures f.cpus[c].load <= MAX_RUNQUEUE_SIZE + 1
  {
    NoLoad(f.cpus[d].levels, 1);
    if c >= ncpus { NoLoad(f.cpus[c].levels, 0); }
  }

  lemma FilledPaced(s: Sched, f: Sched, ts: seq<Tid>, ncpus: nat, d: nat, c: nat)
    requires Early(s, ncpus) && Filled(s, f, ts, ncpus, d) && d < ncpus <= MAX_CPUS && c < MAX_CPUS
    ensures QueuesPaced(f, c, 1)
  {
    var levels := f.cpus[c].levels;
    FillLoads(s, f, ts, ncpus, d, c);
    forall p, k, t | p > 0 && At(f, Slot(c, p, k), t) ensures Paced(f.threads[t], levels, p, k, 1) {
      AboveBound(levels, p);
      LiveParts(levels, p, 0);
    }
  }

  lemma FilledCurrent(s: Sched, f: Sched, ts: seq<Tid>, ncpus: nat, d: nat, c: nat)
    requires Early(s, ncpus) && Filled(s, f, ts, ncpus, d) && d < ncpus <= MAX_CPUS && c < MAX_CPUS
    ensures CurrentPaced(f, c)
  {
    var levels, current := f.cpus[c].levels, f.cpus[c].current;
    FillLoads(s, f, ts, ncpus, d, c);
    LiveParts(levels, 1, 0);
    if current.Some? {
      assert At(s, On(c), current.value);
      var q := NextLevel(f.threads[current.value]);
      AboveBound(levels, q);
      LiveParts(levels, q, 0);
    }
  }

  /** The fill establishes the balance, whatever slices came before it. */
  lemma FillBalance(s: Sched, ts: seq<Tid>, ncpus: nat)
    requires Early(s, ncpus) && 0 < ncpus <= MAX_CPUS && (forall t <- ts :: t in s.threads)
    requires forall i, j :: 0 <= i < j < |ts| ==> ts[i] != ts[j]
    ensures Balance(Fill(s, ts, ncpus))
    ensures forall t <- ts :: s.threads[t].state == Runnable ==> t in Fill(s, ts, ncpus).offered
  {
    var d := SomeNarrow(s, ncpus);
    FillFilled(s, ts, ncpus, d);
    var f := Fill(s, ts, ncpus);
    forall c | 0 <= c < MAX_CPUS ensures QueuesPaced(f, c, 1) && CurrentPaced(f, c) {
      FilledPaced(s, f, ts, ncpus, d, c);
      FilledCurrent(s, f, ts, ncpus, d, c);
    }
  }

  /** Without CPUs in use the fill goes to CPU 0, as it does with one. */
  lemma {:induction false} FillOfNone(s: Sched, ts: seq<Tid>)
    requires Shape(s) && (forall t <- ts :: t in s.threads)
    ensures Fill(s, ts, 0) == Fill(s, ts, 1)
    decreases ts
  {
    if ts != [] {
      EnqueueIfRunnableShape(s, ts[0], 0);
      assert LeastLoaded(s, 0) == LeastLoaded(s, 1) == 0;
      FillOfNone(EnqueueIfRunnable(s, ts[0], 0), ts[1..]);
    }
  }

  // ----- From boot -----

  /** A boot: slices on the CPUs in use, the fill, and slices on any CPU. */
  ghost predicate IsBoot(boot: Sched, early: seq<Tick>, ts: seq<Tid>, ncpus: nat, ticks: seq<Tick>) {
    && Boot(boot) && ncpus <= MAX_CPUS && IsTicks(boot, early) && (forall tick <- early :: tick.cpu < ncpus)
    && (forall u <- ts :: u in AfterTicks(boot, early).threads)
    && IsTicks(Fill(AfterTicks(boot, early), ts, ncpus), ticks)
  }

  ghost function Booted(boot: Sched, early: seq<Tick>, ts: seq<Tid>, ncpus: nat, ticks: seq<Tick>): Sched
    requires IsBoot(boot, early, ts, ncpus, ticks)
  {
    AfterTicks(Fill(AfterTicks(boot, early), ts, ncpus), ticks)
  }

  lemma BootBalance(boot: Sched, early: seq<Tick>, ts: seq<Tid>, ncpus: nat, ticks: seq<Tick>)
    requires IsBoot(boot, early, ts, ncpus, ticks) && forall i, j :: 0 <= i < j < |ts| ==> ts[i] != ts[j]
    ensures Balance(Fill(AfterTicks(boot, early), ts, ncpus)) && Balance(Booted(boot, early, ts, ncpus, ticks))
    ensures var s := AfterTicks(boot, early);
      forall t <- ts :: s.threads[t].state == Runnable ==> t in Fill(s, ts, ncpus).offered
  {
    var n := if ncpus == 0 then 1 else ncpus;
    BootQuiet(boot);
    EarlyRun(boot, early, n);
    var s := AfterTicks(boot, early);
    if ncpus == 0 { FillOfNone(s, ts); }
    FillBalance(s, ts, n);
    TicksBalance(Fill(s, ts, ncpus), ticks);
  }

  /** No run of timer handlers, before the fill or after it, ever lets a priority wrap around: all stay in 0..4, and the
      next ageing pass, wherever it happens, lowers or keeps each of them. */
  lemma NeverWraps(boot: Sched, early: seq<Tick>, ts: seq<Tid>, ncpus: nat, ticks: seq<Tick>, cpu: nat, t: Tid)
    requires IsBoot(boot, early, ts, ncpus, ticks) && forall i, j :: 0 <= i < j < |ts| ==> ts[i] != ts[j]
    requires cpu < MAX_CPUS && t in Booted(boot, early, ts, ncpus, ticks).threads
    ensures var e := Booted(boot, early, ts, ncpus, ticks);
      && Inv(e) && e.threads[t].dynamicPriority < MAX_PRIORITY
      && t in Age(e, cpu).threads && Age(e, cpu).threads[t].dynamicPriority <= e.threads[t].dynamicPriority
  {
    BootBalance(boot, early, ts, ncpus, ticks);
    AgeLowers(Booted(boot, early, ts, ncpus, ticks), cpu, t);
  }

  // ----- Dropped threads -----

  /** The one thing that can bring a dropped thread back is another offer, which is what the fill makes. */
  lemma DroppedOffered(s: Sched, t: Tid, cpu: nat)
    requires Inv(s) && t in s.dropped && s.threads[t].state == Runnable && cpu < MAX_CPUS
    ensures Placed(Enqueue(s, t, cpu), t) <==> Used(s.cpus[cpu].levels[SlotLevel(s.threads[t])]) < MAX_RUNQUEUE_SIZE
  {
    var s', q := Enqueue(s, t, cpu), SlotLevel(s.threads[t]);
    OfferInv(s, t, cpu);
    if Used(s.cpus[cpu].levels[q]) < MAX_RUNQUEUE_SIZE {
      assert At(s', Slot(cpu, q, Used(s.cpus[cpu].levels[q])), t);
    }
  }
}
