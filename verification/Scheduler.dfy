/** The scheduler's arrays and counters, each operation tied to its specification on values. */
module SchedulerState {
  import opened SchedSpec

  lemma EmptyShape()
    ensures Shape(Sched(seq(MAX_CPUS, c => Cpu(seq(MAX_PRIORITY, p => Level([], 0)), 0, None)), map[], {}, {}))
  {
    EmptyLive(seq(MAX_PRIORITY, p => Level([], 0)), 0);
  }

  lemma {:induction false} EmptyLive(levels: seq<Level>, p: nat)
    requires p <= |levels| && forall q :: 0 <= q < |levels| ==> levels[q] == Level([], 0)
    ensures LevelsOk(levels) && LiveFrom(levels, p) == 0
    decreases |levels| - p
  {
    if p < |levels| { EmptyLive(levels, p + 1); }
  }

  class Scheduler {
    const queues: array3<Tid>
    const head: array2<nat>
    const tail: array2<nat>
    const threadsPerCPU: array<Word>
    const currentThread: array<Option<Tid>>
    var threads: map<Tid, Thread>
    ghost var st: Sched

    /** Zero-filled globals: empty queues and no current threads. */
    constructor ()
      ensures Valid() && fresh(queues) && fresh(head) && fresh(tail) && fresh(threadsPerCPU) && fresh(currentThread)
      ensures st == Sched(seq(MAX_CPUS, c => Cpu(seq(MAX_PRIORITY, p => Level([], 0)), 0, None)), map[], {}, {})
    {
      queues := new Tid[MAX_CPUS, MAX_PRIORITY, MAX_RUNQUEUE_SIZE]((c, p, i) => 0);
      head := new nat[MAX_CPUS, MAX_PRIORITY]((c, p) => 0);
      tail := new nat[MAX_CPUS, MAX_PRIORITY]((c, p) => 0);
      threadsPerCPU := new Word[MAX_CPUS](c => 0);
      currentThread := new Option<Tid>[MAX_CPUS](c => None);
      threads := map[];
      EmptyShape();
      st := Sched(seq(MAX_CPUS, c => Cpu(seq(MAX_PRIORITY, p => Level([], 0)), 0, None)), map[], {}, {});
    }

    ghost predicate Arrays() {
      && queues.Length0 == head.Length0 == tail.Length0 == threadsPerCPU.Length == currentThread.Length == MAX_CPUS
      && queues.Length1 == head.Length1 == tail.Length1 == MAX_PRIORITY
      && queues.Length2 == MAX_RUNQUEUE_SIZE && head != tail
    }

    ghost predicate SameLevel(c: nat, p: nat)
      requires Arrays() && Shape(st) && c < MAX_CPUS && p < MAX_PRIORITY
      reads this, queues, head, tail
    {
      var l := st.cpus[c].levels[p];
      && head[c, p] == l.head && tail[c, p] == |l.accepted|
      && forall i :: 0 <= i < |l.accepted| ==> queues[c, p, i] == l.accepted[i]
    }

    /** The arrays hold the queues, counters and current threads of `st`. */
    ghost predicate Valid()
      reads this, queues, head, tail, threadsPerCPU, currentThread
    {
      && Arrays() && Shape(st) && threads == st.threads
      && (forall c, p :: 0 <= c < MAX_CPUS && 0 <= p < MAX_PRIORITY ==> SameLevel(c, p))
      && (forall c :: 0 <= c < MAX_CPUS ==>
            threadsPerCPU[c] == st.cpus[c].load && currentThread[c] == st.cpus[c].current)
    }

    method EnqueueThread(t: Tid, cpu: nat)
      requires Valid() && t in threads && cpu < MAX_CPUS
      modifies this`st, queues, tail, threadsPerCPU
      ensures Valid() && st == Enqueue(old(st), t, cpu)
    {
      EnqueueShape(st, t, cpu);
      ghost var s' := Enqueue(st, t, cpu);
      var prio: nat := threads[t].dynamicPriority;
      if prio >= MAX_PRIORITY {
        prio := MAX_PRIORITY - 1;
      }
      assert SameLevel(cpu, prio);
      if tail[cpu, prio] >= MAX_RUNQUEUE_SIZE {
        st := s';
        forall c, p | 0 <= c < MAX_CPUS && 0 <= p < MAX_PRIORITY ensures SameLevel(c, p) {
          assert old(SameLevel(c, p));
        }
        return;
      }
      queues[cpu, prio, tail[cpu, prio]] := t;
      tail[cpu, prio] := tail[cpu, prio] + 1;
      threadsPerCPU[cpu] := (threadsPerCPU[cpu] + 1) % WORD;
      st := s';
      forall c, p | 0 <= c < MAX_CPUS && 0 <= p < MAX_PRIORITY ensures SameLevel(c, p) {
        assert old(SameLevel(c, p));
      }
    }

    method DequeueThread(cpu: nat) returns (r: Option<Tid>)
      requires Valid() && cpu < MAX_CPUS
      modifies this`st, head, threadsPerCPU
      ensures Valid() && st == Dequeue(old(st), cpu) && r == Dequeued(old(st), cpu)
    {
      DequeueShape(st, cpu);
      var prio := 0;
      while prio < MAX_PRIORITY
        invariant prio <= MAX_PRIORITY && Valid() && st == old(st)
        invariant FirstLevel(st.cpus[cpu].levels, 0) == FirstLevel(st.cpus[cpu].levels, prio)
      {
        assert SameLevel(cpu, prio);
        if head[cpu, prio] < tail[cpu, prio] {
          r := Some(queues[cpu, prio, head[cpu, prio]]);
          ghost var s' := Dequeue(st, cpu);
          head[cpu, prio] := head[cpu, prio] + 1;
          threadsPerCPU[cpu] := (threadsPerCPU[cpu] - 1) % WORD;
          st := s';
          forall c, p | 0 <= c < MAX_CPUS && 0 <= p < MAX_PRIORITY ensures SameLevel(c, p) {
            assert old(SameLevel(c, p));
          }
          return;
        }
        prio := prio + 1;
      }
      r := None;
    }

    /** Writes one thread structure. */
    method SetThread(t: Tid, thread: Thread)
      requires Valid()
      modifies this`threads, this`st
      ensures Valid() && st == old(st).(threads := old(st.threads)[t := thread])
    {
      threads := threads[t := thread];
      st := st.(threads := threads);
      forall c, p | 0 <= c < MAX_CPUS && 0 <= p < MAX_PRIORITY ensures SameLevel(c, p) {
        assert old(SameLevel(c, p));
      }
    }

    method DemotePriority(t: Tid)
      requires Valid() && t in threads
      modifies this`threads, this`st
      ensures Valid() && st == old(st).(threads := old(st.threads)[t := Demoted(old(st.threads)[t])])
    {
      var thread := threads[t];
      if thread.dynamicPriority < MAX_PRIORITY - 1 {
        thread := thread.(dynamicPriority := thread.dynamicPriority + 1);
      }
      SetThread(t, thread);
    }

    /** The inner loop of `ageThreads`. */
    method AgeLevel(cpu: nat, prio: nat)
      requires Valid() && cpu < MAX_CPUS && prio < MAX_PRIORITY
      modifies this`threads, this`st
      ensures Valid()
      ensures var l := old(st.cpus[cpu].levels[prio]); st == old(st).(threads := AgedSlots(old(st.threads), l, l.head))
    {
      ghost var l := st.cpus[cpu].levels[prio];
      assert SameLevel(cpu, prio);
      var i := head[cpu, prio];
      while i < tail[cpu, prio]
        invariant Valid() && st == old(st).(threads := st.threads) && st.threads.Keys == old(st.threads.Keys)
        invariant l.head <= i <= |l.accepted| == tail[cpu, prio]
        invariant AgedSlots(old(st.threads), l, l.head) == AgedSlots(st.threads, l, i)
      {
        assert SameLevel(cpu, prio);
        var t := queues[cpu, prio, i];
        var thread := threads[t];
        if thread.state == Runnable && thread.waitTicks > AGE_THRESHOLD {
          SetThread(t, thread.(waitTicks := 0, dynamicPriority := (thread.dynamicPriority - 1) % WORD));
        } else {
          SetThread(t, thread.(waitTicks := (thread.waitTicks + 1) % WORD));
        }
        i := i + 1;
      }
    }

    method AgeThreads(cpu: nat)
      requires Valid() && cpu < MAX_CPUS
      modifies this`threads, this`st
      ensures Valid() && st == Age(old(st), cpu)
    {
      var prio := MAX_PRIORITY - 1;
      while prio > 0
        invariant 0 <= prio < MAX_PRIORITY
        invariant Valid() && st == old(st).(threads := st.threads) && st.threads.Keys == old(st.threads.Keys)
        invariant AgedLevels(old(st.threads), st.cpus[cpu].levels, MAX_PRIORITY - 1)
               == AgedLevels(st.threads, st.cpus[cpu].levels, prio)
      {
        AgeLevel(cpu, prio);
        prio := prio - 1;
      }
    }

    /** The first half of `schedule`: the running thread is demoted and enqueued again. */
    method RequeueCurrent(cpu: nat)
      requires Valid() && cpu < MAX_CPUS
      modifies this`threads, this`st, queues, tail, threadsPerCPU
      ensures Valid() && st == Requeued(old(st), cpu)
    {
      var current := currentThread[cpu];
      if current.Some? && threads[current.value].state == Running {
        var t := current.value;
        SetThread(t, threads[t].(state := Runnable));
        DemotePriority(t);
        assert st.threads == old(st.threads)[t := Demoted(old(st.threads)[t].(state := Runnable))];
        EnqueueThread(t, cpu);
      }
    }

    method DispatchThread(cpu: nat, next: Tid)
      requires Valid() && cpu < MAX_CPUS && next in threads
      modifies this`threads, this`st, currentThread
      ensures Valid() && st == Dispatch(old(st), cpu, next)
    {
      SetThread(next, threads[next].(waitTicks := 0, state := Running));
      currentThread[cpu] := Some(next);
      ghost var before := st;
      st := Dispatch(old(st), cpu, next);
      forall c, p | 0 <= c < MAX_CPUS && 0 <= p < MAX_PRIORITY ensures SameLevel(c, p) {
        assert old(SameLevel(c, p));
        assert st.cpus[c].levels[p] == before.cpus[c].levels[p];
      }
    }

    /** `idle` is the first thread of the process that the call has just created and looked up. */
    method Schedule(cpu: nat, idle: Tid)
      requires Valid() && cpu < MAX_CPUS && idle !in threads
      modifies this`threads, this`st, queues, head, tail, threadsPerCPU, currentThread
      ensures Valid() && st == SchedSpec.Schedule(old(st), cpu, idle)
    {
      SetThread(idle, Fresh());
      RequeuedShape(st, cpu);
      RequeueCurrent(cpu);
      var nextThread := DequeueThread(cpu);
      if nextThread.None? {
        nextThread := Some(idle);
      }
      DispatchThread(cpu, nextThread.value);
    }

    /** What `apicTimerHandler` does when the time slice is over. */
    method SliceOver(cpu: nat, idle: Tid)
      requires Valid() && cpu < MAX_CPUS && idle !in threads
      modifies this`threads, this`st, queues, head, tail, threadsPerCPU, currentThread
      ensures Valid() && st == SchedSpec.Schedule(Age(old(st), cpu), cpu, idle)
    {
      AgeThreads(cpu);
      Schedule(cpu, idle);
    }

    /** The first CPU of least load. */
    method LeastLoadedCPU(ncpus: nat) returns (idx: nat)
      requires Valid() && ncpus <= MAX_CPUS
      ensures idx == LeastLoaded(st, ncpus) && idx < MAX_CPUS
      ensures ncpus > 0 ==>
        && idx < ncpus && (forall j :: 0 <= j < ncpus ==> threadsPerCPU[idx] <= threadsPerCPU[j])
        && (forall j :: 0 <= j < idx ==> threadsPerCPU[idx] < threadsPerCPU[j])
    {
      var min := threadsPerCPU[0];
      idx := 0;
      var i := 0;
      while i < ncpus
        invariant i <= ncpus && idx < MAX_CPUS && min == st.cpus[idx].load
        invariant LeastLoaded(st, ncpus) == LeastFrom(st.cpus, ncpus, i, idx)
      {
        if threadsPerCPU[i] < min {
          min := threadsPerCPU[i];
          idx := i;
        }
        i := i + 1;
      }
      if ncpus > 0 { FirstLeast(st, ncpus); }
    }

    /** `list` is the chain of threads from `head_thread` on. */
    method EnqueueRunnableThread(list: seq<Tid>, ncpus: nat)
      requires Valid() && ncpus <= MAX_CPUS && forall t <- list :: t in threads
      modifies this`st, queues, tail, threadsPerCPU
      ensures Valid() && st == Fill(old(st), list, ncpus) && st.threads == old(st.threads)
    {
      var i := 0;
      while i < |list|
        invariant i <= |list| && Valid() && st.threads == old(st.threads)
        invariant Fill(old(st), list, ncpus) == Fill(st, list[i..], ncpus)
      {
        var thread := list[i];
        assert list[i..][0] == thread && list[i..][1..] == list[i + 1..];
        if threads[thread].state == Runnable {
          var cpu := LeastLoadedCPU(ncpus);
          EnqueueThread(thread, cpu);
        }
        i := i + 1;
      }
    }
  }
}
