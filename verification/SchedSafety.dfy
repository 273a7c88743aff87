/** What every run of schedule and ageThreads keeps: one place per thread, states that match, nobody lost unrecorded. */
module SchedSafety {
  import opened SchedSpec

  ghost predicate OnePlace(s: Sched) {
    forall p1, p2, t :: At(s, p1, t) && At(s, p2, t) ==> p1 == p2
  }

  ghost predicate Placed(s: Sched, t: Tid) { exists place :: At(s, place, t) }

  ghost predicate RunningOn(s: Sched, t: Tid) { exists c :: At(s, On(c), t) }

  /** The invariant, while the thread x, if any, has just left its queue and has no place yet. */
  ghost predicate InvBut(s: Sched, x: Option<Tid>) {
    && Shape(s) && OnePlace(s)
    && (forall place, t :: At(s, place, t) && place.Slot? ==> s.threads[t].state == Runnable)
    && (forall t :: t in s.threads && s.threads[t].state == Running ==> RunningOn(s, t))
    && (forall c, t :: At(s, On(c), t) ==> s.threads[t].state == Running)
    && (forall t :: t in s.offered && t !in s.dropped && Some(t) != x ==> Placed(s, t))
    && (forall t :: t in s.dropped ==> !Placed(s, t))
    && s.dropped <= s.offered <= s.threads.Keys
    && (x.Some? ==>
          && x.value in s.threads && x.value !in s.dropped && !Placed(s, x.value)
          && s.threads[x.value].state == Runnable)
  }

  /** Each thread is in one place at most; queued threads are runnable; a thread is running exactly when it is
      some CPU's current thread; and every thread ever offered is queued, current or recorded as dropped. */
  ghost predicate Inv(s: Sched) { InvBut(s, None) }

  // ----- Places -----

  lemma EnqueueAt(s: Sched, t: Tid, cpu: nat, place: Place, u: Tid)
    requires Shape(s) && t in s.threads && cpu < MAX_CPUS
    ensures var q := SlotLevel(s.threads[t]); var n := |s.cpus[cpu].levels[q].accepted|;
      At(Enqueue(s, t, cpu), place, u)
      <==> At(s, place, u) || (n < MAX_RUNQUEUE_SIZE && place == Slot(cpu, q, n) && u == t)
  {
  }

  lemma DequeueAt(s: Sched, cpu: nat, place: Place, u: Tid)
    requires Shape(s) && cpu < MAX_CPUS
    ensures var q := FirstLevel(s.cpus[cpu].levels, 0);
      At(Dequeue(s, cpu), place, u)
      <==> At(s, place, u) && (q < MAX_PRIORITY ==> place != Slot(cpu, q, s.cpus[cpu].levels[q].head))
  {
  }

  lemma DispatchAt(s: Sched, cpu: nat, next: Tid, place: Place, u: Tid)
    requires Shape(s) && cpu < MAX_CPUS && next in s.threads
    ensures At(Dispatch(s, cpu, next), place, u) <==> (if place == On(cpu) then u == next else At(s, place, u))
  {
  }

  /** The CPU's current thread is forgotten, as `schedule` does when it overwrites `currentThread[cpu]`. */
  function Vacated(s: Sched, cpu: nat): Sched
    requires cpu < |s.cpus|
  {
    s.(cpus := s.cpus[cpu := s.cpus[cpu].(current := None)])
  }

  lemma VacatedAt(s: Sched, cpu: nat, place: Place, u: Tid)
    requires Shape(s) && cpu < MAX_CPUS
    ensures At(Vacated(s, cpu), place, u) <==> At(s, place, u) && place != On(cpu)
  {
  }

  // ----- One schedule call -----

  /** The thread without a place gets one that was free. */
  lemma PlaceGained(s: Sched, s': Sched, t: Tid, free: Place)
    requires InvBut(s, Some(t)) && Shape(s') && s'.threads == s.threads && free.Slot?
    requires s'.offered == s.offered + {t} && s'.dropped == s.dropped
    requires forall u :: !At(s, free, u)
    requires forall place, u :: At(s', place, u) <==> At(s, place, u) || (place == free && u == t)
    ensures Inv(s')
  {
    assert At(s', free, t);
    StillThere(s, s', free);
  }

  /** Threads elsewhere than at the one place that changes keep a place. */
  lemma StillThere(s: Sched, s': Sched, except: Place)
    requires forall place, u :: At(s, place, u) && place != except ==> At(s', place, u)
    ensures forall u :: Placed(s, u) && !At(s, except, u) ==> Placed(s', u)
    ensures forall u :: RunningOn(s, u) && !At(s, except, u) ==> RunningOn(s', u)
  {
    forall u | Placed(s, u) && !At(s, except, u) ensures Placed(s', u) {
      var place :| At(s, place, u);
      assert At(s', place, u);
    }
    forall u | RunningOn(s, u) && !At(s, except, u) ensures RunningOn(s', u) {
      var c :| At(s, On(c), u);
      assert At(s', On(c), u);
    }
  }

  lemma NoNewPlaces(s: Sched, s': Sched)
    requires forall place, u :: At(s', place, u) ==> At(s, place, u)
    ensures OnePlace(s) ==> OnePlace(s')
    ensures forall u :: Placed(s', u) ==> Placed(s, u)
  {
    forall u | Placed(s', u) ensures Placed(s, u) {
      var place :| At(s', place, u);
      assert At(s, place, u);
    }
  }

  lemma SamePlaces(s: Sched, s': Sched)
    requires forall place, u :: At(s', place, u) <==> At(s, place, u)
    ensures OnePlace(s) ==> OnePlace(s')
    ensures forall u :: Placed(s', u) == Placed(s, u) && RunningOn(s', u) == RunningOn(s, u)
  {
    forall u ensures Placed(s', u) == Placed(s, u) {
      if Placed(s, u) { var place :| At(s, place, u); assert At(s', place, u); }
      if Placed(s', u) { var place :| At(s', place, u); assert At(s, place, u); }
    }
    forall u ensures RunningOn(s', u) == RunningOn(s, u) {
      if RunningOn(s, u) { var c :| At(s, On(c), u); assert At(s', On(c), u); }
      if RunningOn(s', u) { var c :| At(s', On(c), u); assert At(s, On(c), u); }
    }
  }

  lemma EnqueueInv(s: Sched, t: Tid, cpu: nat)
    requires InvBut(s, Some(t)) && cpu < MAX_CPUS
    ensures Inv(Enqueue(s, t, cpu))
  {
    var s', q := Enqueue(s, t, cpu), SlotLevel(s.threads[t]);
    var n := |s.cpus[cpu].levels[q].accepted|;
    EnqueueShape(s, t, cpu);
    forall place, u { EnqueueAt(s, t, cpu, place, u); }
    if n < MAX_RUNQUEUE_SIZE {
      PlaceGained(s, s', t, Slot(cpu, q, n));
    } else {
      SamePlaces(s, s');
    }
  }

  /** A runnable thread without a place can be offered, be it for the first time or after it was dropped. */
  lemma OfferInv(s: Sched, t: Tid, cpu: nat)
    requires Inv(s) && t in s.threads && s.threads[t].state == Runnable && !Placed(s, t) && cpu < MAX_CPUS
    ensures Inv(Enqueue(s, t, cpu))
  {
    Undropped(s, t);
    EnqueueInv(s.(dropped := s.dropped - {t}), t, cpu);
    SameEnqueue(s, t, cpu);
  }

  lemma Undropped(s: Sched, t: Tid)
    requires Inv(s) && t in s.threads && s.threads[t].state == Runnable && !Placed(s, t)
    ensures InvBut(s.(dropped := s.dropped - {t}), Some(t))
  {
    SamePlaces(s, s.(dropped := s.dropped - {t}));
  }

  lemma SameEnqueue(s: Sched, t: Tid, cpu: nat)
    requires Shape(s) && t in s.threads && cpu < MAX_CPUS
    ensures Shape(s.(dropped := s.dropped - {t}))
    ensures Enqueue(s.(dropped := s.dropped - {t}), t, cpu) == Enqueue(s, t, cpu)
  {
    assert s.dropped - {t} + {t} == s.dropped + {t} && s.dropped - {t} - {t} == s.dropped - {t};
  }

  /** Dequeuing takes the thread's place away and nothing else. */
  lemma DequeueInv(s: Sched, cpu: nat)
    requires Inv(s) && cpu < MAX_CPUS
    ensures InvBut(Dequeue(s, cpu), Dequeued(s, cpu))
  {
    var s', q := Dequeue(s, cpu), FirstLevel(s.cpus[cpu].levels, 0);
    DequeueShape(s, cpu);
    forall place, u { DequeueAt(s, cpu, place, u); }
    if q < MAX_PRIORITY {
      var gone, t := Slot(cpu, q, s.cpus[cpu].levels[q].head), Dequeued(s, cpu).value;
      assert At(s, gone, t);
      PlaceLost(s, s', t, gone);
    }
  }

  lemma PlaceLost(s: Sched, s': Sched, t: Tid, gone: Place)
    requires Inv(s) && Shape(s') && s'.threads == s.threads && gone.Slot? && At(s, gone, t)
    requires s'.offered == s.offered && s'.dropped == s.dropped
    requires forall place, u :: At(s', place, u) <==> At(s, place, u) && place != gone
    ensures InvBut(s', Some(t))
  {
    assert Placed(s, t);
    StillThere(s, s', gone);
    NoNewPlaces(s, s');
  }

  /** The chosen thread becomes the current thread of a CPU that has none. */
  lemma DispatchInv(s: Sched, cpu: nat, next: Tid)
    requires InvBut(s, Some(next)) && cpu < MAX_CPUS && s.cpus[cpu].current == None
    ensures Inv(Dispatch(s, cpu, next))
  {
    var s' := Dispatch(s, cpu, next);
    forall place, u { DispatchAt(s, cpu, next, place, u); }
    forall u ensures !At(s, On(cpu), u) { }
    CpuGained(s, s', next, cpu);
  }

  lemma CpuGained(s: Sched, s': Sched, t: Tid, cpu: nat)
    requires InvBut(s, Some(t)) && Shape(s') && (forall u :: !At(s, On(cpu), u))
    requires s'.threads.Keys == s.threads.Keys && s'.threads[t].state == Running
    requires forall u :: u in s.threads && u != t ==> s'.threads[u] == s.threads[u]
    requires s'.offered == s.offered && s'.dropped == s.dropped
    requires forall place, u :: At(s', place, u) <==> At(s, place, u) || (place == On(cpu) && u == t)
    ensures Inv(s')
  {
    assert At(s', On(cpu), t);
    StillThere(s, s', On(cpu));
    forall place ensures !At(s, place, t) { assert At(s, place, t) ==> Placed(s, t); }
  }

  /** The running thread stops: it becomes runnable and has no place until it is enqueued again. */
  lemma StopInv(s: Sched, cpu: nat, t: Tid)
    requires Inv(s) && cpu < MAX_CPUS && s.cpus[cpu].current == Some(t)
    ensures InvBut(Vacated(s.(threads := s.threads[t := Demoted(s.threads[t].(state := Runnable))]), cpu), Some(t))
  {
    var s' := Vacated(s.(threads := s.threads[t := Demoted(s.threads[t].(state := Runnable))]), cpu);
    assert At(s, On(cpu), t);
    forall place, u ensures At(s', place, u) <==> At(s, place, u) && place != On(cpu) { VacatedAt(s, cpu, place, u); }
    CpuLost(s, s', t, cpu);
  }

  lemma CpuLost(s: Sched, s': Sched, t: Tid, cpu: nat)
    requires Inv(s) && Shape(s') && At(s, On(cpu), t)
    requires s'.threads.Keys == s.threads.Keys && s'.threads[t].state == Runnable
    requires forall u :: u in s.threads && u != t ==> s'.threads[u] == s.threads[u]
    requires s'.offered == s.offered && s'.dropped == s.dropped
    requires forall place, u :: At(s', place, u) <==> At(s, place, u) && place != On(cpu)
    ensures InvBut(s', Some(t))
  {
    assert Placed(s, t);
    forall place ensures !At(s', place, t) { assert At(s, place, t) ==> place == On(cpu); }
    forall u | u != t ensures !At(s, On(cpu), u) { }
    StillThere(s, s', On(cpu));
    NoNewPlaces(s, s');
  }

  lemma RequeuedInv(s: Sched, cpu: nat)
    requires Inv(s) && cpu < MAX_CPUS
    ensures Shape(Requeued(s, cpu)) && Inv(Vacated(Requeued(s, cpu), cpu))
  {
    RequeuedShape(s, cpu);
    var current := s.cpus[cpu].current;
    if current.Some? {
      var t := current.value;
      assert At(s, On(cpu), t);
      var stopped := s.(threads := s.threads[t := Demoted(s.threads[t].(state := Runnable))]);
      StopInv(s, cpu, t);
      EnqueueInv(Vacated(stopped, cpu), t, cpu);
      assert Vacated(Enqueue(stopped, t, cpu), cpu) == Enqueue(Vacated(stopped, cpu), t, cpu);
    } else {
      assert Vacated(s, cpu) == s;
    }
  }

  lemma IdleInv(s: Sched, idle: Tid)
    requires Inv(s) && idle !in s.threads
    ensures Inv(WithIdle(s, idle)) && InvBut(WithIdle(s, idle), Some(idle))
    ensures !Placed(WithIdle(s, idle), idle) && idle !in WithIdle(s, idle).offered
  {
    var s' := WithIdle(s, idle);
    SamePlaces(s, s');
    forall place ensures !At(s, place, idle) { }
  }

  /** schedule keeps the invariant. */
  lemma ScheduleInv(s: Sched, cpu: nat, idle: Tid)
    requires Inv(s) && cpu < MAX_CPUS && idle !in s.threads
    ensures Inv(Schedule(s, cpu, idle))
  {
    var s1 := WithIdle(s, idle);
    IdleInv(s, idle);
    var s2 := Requeued(s1, cpu);
    RequeuedInv(s1, cpu);
    if Dequeued(s2, cpu).None? { IdleUnplaced(s1, cpu, idle); }
    PickInv(s2, cpu, idle);
  }

  /** The second half of schedule: dequeue and dispatch. */
  lemma PickInv(s: Sched, cpu: nat, idle: Tid)
    requires Shape(s) && cpu < MAX_CPUS && idle in s.threads && Inv(Vacated(s, cpu))
    requires Dequeued(s, cpu).None? ==> InvBut(Vacated(s, cpu), Some(idle))
    ensures var next := Dequeued(s, cpu);
      Inv(Dispatch(Dequeue(s, cpu), cpu, if next.Some? then next.value else idle))
  {
    DequeueShape(s, cpu);
    var v := Vacated(s, cpu);
    DequeueInv(v, cpu);
    assert Dequeue(v, cpu) == Vacated(Dequeue(s, cpu), cpu) && Dequeued(v, cpu) == Dequeued(s, cpu);
    var next := if Dequeued(s, cpu).Some? then Dequeued(s, cpu).value else idle;
    DispatchInv(Dequeue(v, cpu), cpu, next);
    assert Dispatch(Dequeue(v, cpu), cpu, next) == Dispatch(Dequeue(s, cpu), cpu, next);
  }

  /** When every queue is empty, the new idle thread is still untouched. */
  lemma IdleUnplaced(s: Sched, cpu: nat, idle: Tid)
    requires Inv(s) && cpu < MAX_CPUS && idle in s.threads && !Placed(s, idle) && idle !in s.offered
    requires s.threads[idle].state == Runnable && Shape(Requeued(s, cpu)) && Inv(Vacated(Requeued(s, cpu), cpu))
    ensures InvBut(Vacated(Requeued(s, cpu), cpu), Some(idle))
  {
    var v := Vacated(Requeued(s, cpu), cpu);
    var current := s.cpus[cpu].current;
    if current.Some? {
      var t := current.value;
      assert At(s, On(cpu), t);
      var stopped := s.(threads := s.threads[t := Demoted(s.threads[t].(state := Runnable))]);
      assert t != idle;
      if Placed(v, idle) {
        var place :| At(v, place, idle);
        VacatedAt(Requeued(s, cpu), cpu, place, idle);
        EnqueueAt(stopped, t, cpu, place, idle);
        assert At(stopped, place, idle) ==> At(s, place, idle);
        assert false;
      }
    } else {
      assert v == s;
    }
  }

  // ----- Ageing -----

  ghost predicate SameStates(threads: map<Tid, Thread>, threads': map<Tid, Thread>) {
    threads.Keys == threads'.Keys && forall t :: t in threads ==> threads'[t].state == threads[t].state
  }

  lemma {:induction false} AgedSlotsStates(threads: map<Tid, Thread>, l: Level, i: nat)
    requires l.head <= i <= |l.accepted| && forall j :: 0 <= j < |l.accepted| ==> l.accepted[j] in threads
    ensures SameStates(threads, AgedSlots(threads, l, i))
    decreases |l.accepted| - i
  {
    if i < |l.accepted| {
      AgedSlotsStates(threads[l.accepted[i] := Aged(threads[l.accepted[i]])], l, i + 1);
    }
  }

  lemma {:induction false} AgedLevelsStates(threads: map<Tid, Thread>, levels: seq<Level>, prio: nat)
    requires prio < |levels| && LevelsOk(levels)
    requires forall p, j :: 0 <= p < |levels| && 0 <= j < |levels[p].accepted| ==> levels[p].accepted[j] in threads
    ensures SameStates(threads, AgedLevels(threads, levels, prio))
    decreases prio
  {
    if prio > 0 {
      AgedSlotsStates(threads, levels[prio], levels[prio].head);
      AgedLevelsStates(AgedSlots(threads, levels[prio], levels[prio].head), levels, prio - 1);
    }
  }

  lemma AgeInv(s: Sched, cpu: nat)
    requires Inv(s) && cpu < MAX_CPUS
    ensures Inv(Age(s, cpu)) && Age(s, cpu).threads.Keys == s.threads.Keys
  {
    AgedLevelsStates(s.threads, s.cpus[cpu].levels, MAX_PRIORITY - 1);
    SamePlaces(s, Age(s, cpu));
  }

  // ----- Runs -----

  /** The two calls of the timer handler: ageThreads, and schedule with the thread of a newly created idle process. The
      handler makes both, in this order, on one CPU; the runs below may make them in any order. */
  datatype Step = ScheduleStep(cpu: nat, idle: Tid) | AgeStep(cpu: nat)

  ghost predicate Enabled(s: Sched, step: Step) {
    Shape(s) && step.cpu < MAX_CPUS && (step.ScheduleStep? ==> step.idle !in s.threads)
  }

  ghost function Next(s: Sched, step: Step): Sched
    requires Enabled(s, step)
  {
    match step
    case ScheduleStep(cpu, idle) => Schedule(s, cpu, idle)
    case AgeStep(cpu) => Age(s, cpu)
  }

  lemma NextShape(s: Sched, step: Step)
    requires Enabled(s, step)
    ensures Shape(Next(s, step))
  {
    if step.ScheduleStep? { ScheduleShape(s, step.cpu, step.idle); }
  }

  ghost predicate IsRun(s: Sched, run: seq<Step>)
    decreases |run|
  {
    run == [] || (Enabled(s, run[0]) && IsRun(Next(s, run[0]), run[1..]))
  }

  ghost function Final(s: Sched, run: seq<Step>): Sched
    requires IsRun(s, run)
    decreases |run|
  {
    if run == [] then s else Final(Next(s, run[0]), run[1..])
  }

  /** The invariant holds at the end of every run, on any CPUs in any order. */
  lemma {:induction false} RunInv(s: Sched, run: seq<Step>)
    requires Inv(s) && IsRun(s, run)
    ensures Inv(Final(s, run))
    decreases |run|
  {
    if run != [] {
      match run[0] {
        case ScheduleStep(cpu, idle) => ScheduleInv(s, cpu, idle);
        case AgeStep(cpu) => AgeInv(s, cpu);
      }
      RunInv(Next(s, run[0]), run[1..]);
    }
  }

  lemma RequeuedHistory(s: Sched, cpu: nat, idle: Tid)
    requires Inv(s) && cpu < MAX_CPUS && idle !in s.threads
    ensures var s' := Schedule(s, cpu, idle); s.offered <= s'.offered && s.dropped <= s'.dropped
  {
    RequeuedShape(WithIdle(s, idle), cpu);
    if s.cpus[cpu].current.Some? {
      assert At(s, On(cpu), s.cpus[cpu].current.value);
      assert Placed(s, s.cpus[cpu].current.value);
    }
  }

  /** No step forgets an offer or a drop. */
  lemma StepHistory(s: Sched, step: Step)
    requires Inv(s) && Enabled(s, step)
    ensures Inv(Next(s, step)) && s.offered <= Next(s, step).offered && s.dropped <= Next(s, step).dropped
  {
    match step {
      case ScheduleStep(cpu, idle) =>
        ScheduleInv(s, cpu, idle);
        RequeuedHistory(s, cpu, idle);
      case AgeStep(cpu) => AgeInv(s, cpu);
    }
  }

  lemma {:induction false} RunHistory(s: Sched, run: seq<Step>)
    requires Inv(s) && IsRun(s, run)
    ensures s.offered <= Final(s, run).offered && s.dropped <= Final(s, run).dropped
    decreases |run|
  {
    if run != [] {
      StepHistory(s, run[0]);
      RunHistory(Next(s, run[0]), run[1..]);
    }
  }
}
