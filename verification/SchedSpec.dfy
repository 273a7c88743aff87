/** The scheduler as a function on values: what one enqueue, dequeue, ageing pass or schedule call does. */
module SchedSpec {
  const WORD: int := 0x1_0000_0000
  const MAX_CPUS: nat := 8
  const MAX_PRIORITY: nat := 5
  const MAX_RUNQUEUE_SIZE: nat := 64
  const AGE_THRESHOLD: nat := 50

  type Word = w: int | 0 <= w < WORD
  type Tid = nat

  datatype Option<+T> = None | Some(value: T)

  datatype ThreadState = Unused | Embryo | Sleeping | Runnable | Running | Waiting

  datatype Thread = Thread(state: ThreadState, dynamicPriority: Word, waitTicks: Word)

  /** One run queue: the slots filled so far, and the index of the next one to dequeue. */
  datatype Level = Level(accepted: seq<Tid>, head: nat)

  datatype Cpu = Cpu(levels: seq<Level>, load: Word, current: Option<Tid>)

  /** `offered` and `dropped` record history: which threads were ever handed to enqueueThread, and which of them found
      the queue full the last time. */
  datatype Sched = Sched(cpus: seq<Cpu>, threads: map<Tid, Thread>, offered: set<Tid>, dropped: set<Tid>)

  // ----- Shape -----

  predicate LevelOk(l: Level) { l.head <= |l.accepted| <= MAX_RUNQUEUE_SIZE }

  function Live(l: Level): nat
    requires LevelOk(l)
  {
    |l.accepted| - l.head
  }

  predicate LevelsOk(levels: seq<Level>) { forall i :: 0 <= i < |levels| ==> LevelOk(levels[i]) }

  function LiveFrom(levels: seq<Level>, p: nat): nat
    requires p <= |levels| && LevelsOk(levels)
    decreases |levels| - p
  {
    if p == |levels| then 0 else Live(levels[p]) + LiveFrom(levels, p + 1)
  }

  /** Five queues within their bounds, and a load counter equal to the number of queued threads. */
  ghost predicate CpuOk(c: Cpu) {
    && |c.levels| == MAX_PRIORITY && LevelsOk(c.levels)
    && c.load == LiveFrom(c.levels, 0)
  }

  ghost predicate Shape(s: Sched) {
    && |s.cpus| == MAX_CPUS && (forall c :: 0 <= c < MAX_CPUS ==> CpuOk(s.cpus[c]))
    && (forall c :: 0 <= c < MAX_CPUS && s.cpus[c].current.Some? ==> s.cpus[c].current.value in s.threads)
    && (forall c, p, i :: 0 <= c < MAX_CPUS && 0 <= p < MAX_PRIORITY && 0 <= i < |s.cpus[c].levels[p].accepted|
          ==> s.cpus[c].levels[p].accepted[i] in s.threads)
  }

  /** Where a thread can be: in a live slot of a queue, or running on a CPU. */
  datatype Place = Slot(cpu: nat, prio: nat, index: nat) | On(cpu: nat)

  ghost predicate At(s: Sched, place: Place, t: Tid) {
    match place
    case Slot(c, p, i) =>
      c < |s.cpus| && p < |s.cpus[c].levels| && s.cpus[c].levels[p].head <= i < |s.cpus[c].levels[p].accepted|
      && s.cpus[c].levels[p].accepted[i] == t
    case On(c) => c < |s.cpus| && s.cpus[c].current == Some(t)
  }

  // ----- Steps -----

  function SlotLevel(t: Thread): nat {
    if t.dynamicPriority >= MAX_PRIORITY then MAX_PRIORITY - 1 else t.dynamicPriority
  }

  function SetLevel(s: Sched, cpu: nat, prio: nat, l: Level, load: Word): Sched
    requires cpu < |s.cpus| && prio < |s.cpus[cpu].levels|
  {
    s.(cpus := s.cpus[cpu := s.cpus[cpu].(levels := s.cpus[cpu].levels[prio := l], load := load)])
  }

  ghost function Enqueue(s: Sched, t: Tid, cpu: nat): Sched
    requires Shape(s) && t in s.threads && cpu < MAX_CPUS
  {
    var prio := SlotLevel(s.threads[t]);
    var l := s.cpus[cpu].levels[prio];
    var s' := s.(offered := s.offered + {t});
    if |l.accepted| >= MAX_RUNQUEUE_SIZE then s'.(dropped := s.dropped + {t})
    else
      var s'' := s'.(dropped := s.dropped - {t});
      SetLevel(s'', cpu, prio, l.(accepted := l.accepted + [t]), (s.cpus[cpu].load + 1) % WORD)
  }

  /** The first level from p on with a live slot, or MAX_PRIORITY if all are empty. */
  function FirstLevel(levels: seq<Level>, p: nat): (q: nat)
    requires p <= |levels| && LevelsOk(levels)
    ensures p <= q <= |levels|
    ensures q < |levels| ==> levels[q].head < |levels[q].accepted|
    ensures forall r :: p <= r < q ==> Live(levels[r]) == 0
    decreases |levels| - p
  {
    if p == |levels| || levels[p].head < |levels[p].accepted| then p else FirstLevel(levels, p + 1)
  }

  ghost function Dequeued(s: Sched, cpu: nat): Option<Tid>
    requires Shape(s) && cpu < MAX_CPUS
  {
    var levels := s.cpus[cpu].levels;
    var q := FirstLevel(levels, 0);
    if q == MAX_PRIORITY then None else Some(levels[q].accepted[levels[q].head])
  }

  ghost function Dequeue(s: Sched, cpu: nat): Sched
    requires Shape(s) && cpu < MAX_CPUS
  {
    var levels := s.cpus[cpu].levels;
    var q := FirstLevel(levels, 0);
    if q == MAX_PRIORITY then s
    else SetLevel(s, cpu, q, levels[q].(head := levels[q].head + 1), (s.cpus[cpu].load - 1) % WORD)
  }

  function Demoted(t: Thread): Thread {
    if t.dynamicPriority < MAX_PRIORITY - 1 then t.(dynamicPriority := t.dynamicPriority + 1) else t
  }

  function Aged(t: Thread): Thread {
    if t.state == Runnable && t.waitTicks > AGE_THRESHOLD
    then t.(waitTicks := 0, dynamicPriority := (t.dynamicPriority - 1) % WORD)
    else t.(waitTicks := (t.waitTicks + 1) % WORD)
  }

  function Fresh(): Thread { Thread(Runnable, 0, 0) }

  /** The thread that was running goes back to a queue, one level down. */
  ghost function Requeued(s: Sched, cpu: nat): Sched
    requires Shape(s) && cpu < MAX_CPUS
  {
    var current := s.cpus[cpu].current;
    if current.Some? && s.threads[current.value].state == Running then
      var t := current.value;
      Enqueue(s.(threads := s.threads[t := Demoted(s.threads[t].(state := Runnable))]), t, cpu)
    else s
  }

  function Dispatch(s: Sched, cpu: nat, next: Tid): Sched
    requires cpu < |s.cpus| && next in s.threads
  {
    s.(threads := s.threads[next := s.threads[next].(waitTicks := 0, state := Running)],
       cpus := s.cpus[cpu := s.cpus[cpu].(current := Some(next))])
  }

  lemma {:induction false} LiveUpdate(levels: seq<Level>, q: nat, l: Level, p: nat)
    requires p <= |levels| && q < |levels| && LevelOk(l) && LevelsOk(levels)
    ensures LevelsOk(levels[q := l])
    ensures LiveFrom(levels[q := l], p) == LiveFrom(levels, p) + (if p <= q then Live(l) - Live(levels[q]) else 0)
    decreases |levels| - p
  {
    if p < |levels| { LiveUpdate(levels, q, l, p + 1); }
  }

  lemma {:induction false} LiveBound(levels: seq<Level>, p: nat)
    requires p <= |levels| && LevelsOk(levels)
    ensures LiveFrom(levels, p) <= MAX_RUNQUEUE_SIZE * (|levels| - p)
    ensures FirstLevel(levels, p) < |levels| ==> LiveFrom(levels, p) > 0
    decreases |levels| - p
  {
    if p < |levels| { LiveBound(levels, p + 1); }
  }

  lemma SetLevelShape(s: Sched, cpu: nat, q: nat, l: Level, load: Word)
    requires Shape(s) && cpu < MAX_CPUS && q < MAX_PRIORITY && LevelOk(l)
    requires load == s.cpus[cpu].load + Live(l) - Live(s.cpus[cpu].levels[q])
    requires forall i :: 0 <= i < |l.accepted| ==> l.accepted[i] in s.threads
    ensures Shape(SetLevel(s, cpu, q, l, load))
  {
    LiveUpdate(s.cpus[cpu].levels, q, l, 0);
    var s' := SetLevel(s, cpu, q, l, load);
    assert CpuOk(s'.cpus[cpu]);
  }

  lemma EnqueueShape(s: Sched, t: Tid, cpu: nat)
    requires Shape(s) && t in s.threads && cpu < MAX_CPUS
    ensures Shape(Enqueue(s, t, cpu))
  {
    var prio := SlotLevel(s.threads[t]);
    var l := s.cpus[cpu].levels[prio];
    LiveBound(s.cpus[cpu].levels, 0);
    if |l.accepted| < MAX_RUNQUEUE_SIZE {
      var l' := l.(accepted := l.accepted + [t]);
      var s' := s.(offered := s.offered + {t}, dropped := s.dropped - {t});
      SetLevelShape(s', cpu, prio, l', (s.cpus[cpu].load + 1) % WORD);
    }
  }

  lemma DequeueShape(s: Sched, cpu: nat)
    requires Shape(s) && cpu < MAX_CPUS
    ensures Shape(Dequeue(s, cpu))
  {
    var levels := s.cpus[cpu].levels;
    var q := FirstLevel(levels, 0);
    LiveBound(levels, 0);
    if q < MAX_PRIORITY {
      SetLevelShape(s, cpu, q, levels[q].(head := levels[q].head + 1), (s.cpus[cpu].load - 1) % WORD);
    }
  }

  lemma RequeuedShape(s: Sched, cpu: nat)
    requires Shape(s) && cpu < MAX_CPUS
    ensures Shape(Requeued(s, cpu)) && s.threads.Keys <= Requeued(s, cpu).threads.Keys
  {
    var current := s.cpus[cpu].current;
    if current.Some? && s.threads[current.value].state == Running {
      var t := current.value;
      EnqueueShape(s.(threads := s.threads[t := Demoted(s.threads[t].(state := Runnable))]), t, cpu);
    }
  }

  /** The body of `schedule`, for the thread of the idle process that the call has just created. */
  ghost function Schedule(s: Sched, cpu: nat, idle: Tid): Sched
    requires Shape(s) && cpu < MAX_CPUS && idle !in s.threads
  {
    var s1 := WithIdle(s, idle);
    var s2 := Requeued(s1, cpu);
    RequeuedShape(s1, cpu);
    DequeueShape(s2, cpu);
    var next := Dequeued(s2, cpu);
    Dispatch(Dequeue(s2, cpu), cpu, if next.Some? then next.value else idle)
  }

  function WithIdle(s: Sched, idle: Tid): Sched { s.(threads := s.threads[idle := Fresh()]) }

  lemma ScheduleShape(s: Sched, cpu: nat, idle: Tid)
    requires Shape(s) && cpu < MAX_CPUS && idle !in s.threads
    ensures Shape(Schedule(s, cpu, idle)) && s.threads.Keys < Schedule(s, cpu, idle).threads.Keys
  {
    var s1 := WithIdle(s, idle);
    RequeuedShape(s1, cpu);
    DequeueShape(Requeued(s1, cpu), cpu);
  }

  /** Ages the live slots i.. of one level, in slot order. */
  ghost function AgedSlots(threads: map<Tid, Thread>, l: Level, i: nat): (r: map<Tid, Thread>)
    requires l.head <= i <= |l.accepted| && forall j :: 0 <= j < |l.accepted| ==> l.accepted[j] in threads
    ensures r.Keys == threads.Keys
    decreases |l.accepted| - i
  {
    if i == |l.accepted| then threads
    else AgedSlots(threads[l.accepted[i] := Aged(threads[l.accepted[i]])], l, i + 1)
  }

  /** Ages the levels prio, prio - 1, .. 1; level 0 is left out. */
  ghost function AgedLevels(threads: map<Tid, Thread>, levels: seq<Level>, prio: nat): (r: map<Tid, Thread>)
    requires prio < |levels| && LevelsOk(levels)
    requires forall p, j :: 0 <= p < |levels| && 0 <= j < |levels[p].accepted| ==> levels[p].accepted[j] in threads
    ensures r.Keys == threads.Keys
    decreases prio
  {
    if prio == 0 then threads
    else AgedLevels(AgedSlots(threads, levels[prio], levels[prio].head), levels, prio - 1)
  }

  ghost function Age(s: Sched, cpu: nat): Sched
    requires Shape(s) && cpu < MAX_CPUS
  {
    s.(threads := AgedLevels(s.threads, s.cpus[cpu].levels, MAX_PRIORITY - 1))
  }

  // ----- Filling the queues -----

  /** The first of the CPUs i.. whose load is below that of every CPU before it, starting from best. */
  function LeastFrom(cpus: seq<Cpu>, ncpus: nat, i: nat, best: nat): (r: nat)
    requires best < |cpus| && i <= ncpus <= |cpus|
    ensures r < |cpus|
    decreases ncpus - i
  {
    if i == ncpus then best
    else LeastFrom(cpus, ncpus, i + 1, if cpus[i].load < cpus[best].load then i else best)
  }

  /** With a first least one among the CPUs before i, the result is the first least one of all. */
  lemma {:induction false} LeastFromIsLeast(cpus: seq<Cpu>, ncpus: nat, i: nat, best: nat)
    requires best <= i <= ncpus <= |cpus| && best < ncpus
    requires forall j :: 0 <= j < i ==> cpus[best].load <= cpus[j].load
    requires forall j :: 0 <= j < best ==> cpus[best].load < cpus[j].load
    ensures var r := LeastFrom(cpus, ncpus, i, best);
      && r < ncpus
      && (forall j :: 0 <= j < ncpus ==> cpus[r].load <= cpus[j].load)
      && (forall j :: 0 <= j < r ==> cpus[r].load < cpus[j].load)
    decreases ncpus - i
  {
    if i < ncpus { LeastFromIsLeast(cpus, ncpus, i + 1, if cpus[i].load < cpus[best].load then i else best); }
  }

  function LeastLoaded(s: Sched, ncpus: nat): nat
    requires |s.cpus| == MAX_CPUS && ncpus <= MAX_CPUS
  {
    LeastFrom(s.cpus, ncpus, 0, 0)
  }

  lemma FirstLeast(s: Sched, ncpus: nat)
    requires |s.cpus| == MAX_CPUS && 0 < ncpus <= MAX_CPUS
    ensures var r := LeastLoaded(s, ncpus);
      && r < ncpus
      && (forall j :: 0 <= j < ncpus ==> s.cpus[r].load <= s.cpus[j].load)
      && (forall j :: 0 <= j < r ==> s.cpus[r].load < s.cpus[j].load)
  {
    LeastFromIsLeast(s.cpus, ncpus, 0, 0);
  }

  /** `enqueueRunnableThread` over the threads of all processes, one process after the other. */
  ghost function Fill(s: Sched, ts: seq<Tid>, ncpus: nat): (r: Sched)
    requires Shape(s) && ncpus <= MAX_CPUS && forall t <- ts :: t in s.threads
    ensures Shape(r) && r.threads == s.threads
    decreases ts
  {
    if ts == [] then s
    else
      var cpu := LeastLoaded(s, ncpus);
      EnqueueIfRunnableShape(s, ts[0], cpu);
      Fill(EnqueueIfRunnable(s, ts[0], cpu), ts[1..], ncpus)
  }

  ghost function EnqueueIfRunnable(s: Sched, t: Tid, cpu: nat): Sched
    requires Shape(s) && cpu < MAX_CPUS && t in s.threads
  {
    if s.threads[t].state == Runnable then Enqueue(s, t, cpu) else s
  }

  lemma EnqueueIfRunnableShape(s: Sched, t: Tid, cpu: nat)
    requires Shape(s) && cpu < MAX_CPUS && t in s.threads
    ensures Shape(EnqueueIfRunnable(s, t, cpu)) && EnqueueIfRunnable(s, t, cpu).threads == s.threads
  {
    if s.threads[t].state == Runnable { EnqueueShape(s, t, cpu); }
  }
}
