/** What an ageing pass does to the threads, and when it promotes them. */
module SchedAgeing {
  import opened SchedSpec
  import opened SchedSafety

  ghost predicate LiveIn(l: Level, i: nat, t: Tid) { exists j :: i <= j < |l.accepted| && l.accepted[j] == t }

  ghost predicate LiveBelow(levels: seq<Level>, prio: nat, t: Tid)
    requires prio < |levels|
  {
    exists p :: 0 < p <= prio && LiveIn(levels[p], levels[p].head, t)
  }

  ghost predicate DistinctFrom(l: Level, i: nat) {
    forall j, k :: i <= j < k < |l.accepted| ==> l.accepted[j] != l.accepted[k]
  }

  lemma {:induction false} AgedSlotsExact(threads: map<Tid, Thread>, l: Level, i: nat, t: Tid)
    requires l.head <= i <= |l.accepted| && forall j :: 0 <= j < |l.accepted| ==> l.accepted[j] in threads
    requires DistinctFrom(l, i) && t in threads
    ensures AgedSlots(threads, l, i)[t] == if LiveIn(l, i, t) then Aged(threads[t]) else threads[t]
    decreases |l.accepted| - i
  {
    if i < |l.accepted| {
      var u := l.accepted[i];
      AgedSlotsExact(threads[u := Aged(threads[u])], l, i + 1, t);
      assert LiveIn(l, i, t) <==> u == t || LiveIn(l, i + 1, t);
    }
  }

  lemma {:induction false} AgedLevelsExact(threads: map<Tid, Thread>, levels: seq<Level>, prio: nat, t: Tid)
    requires prio < |levels| && LevelsOk(levels) && t in threads
    requires forall p, j :: 0 <= p < |levels| && 0 <= j < |levels[p].accepted| ==> levels[p].accepted[j] in threads
    requires forall p :: 0 <= p <= prio ==> DistinctFrom(levels[p], levels[p].head)
    requires forall p, q :: 0 < p < q <= prio ==>
               !(LiveIn(levels[p], levels[p].head, t) && LiveIn(levels[q], levels[q].head, t))
    ensures AgedLevels(threads, levels, prio)[t] == if LiveBelow(levels, prio, t) then Aged(threads[t]) else threads[t]
    decreases prio
  {
    if prio > 0 {
      AgedSlotsExact(threads, levels[prio], levels[prio].head, t);
      AgedLevelsExact(AgedSlots(threads, levels[prio], levels[prio].head), levels, prio - 1, t);
      assert LiveBelow(levels, prio, t)
        <==> LiveIn(levels[prio], levels[prio].head, t) || LiveBelow(levels, prio - 1, t);
    }
  }

  /** A pass ages every thread queued below level 0 of the CPU exactly once, and no other thread. */
  lemma AgeExact(s: Sched, cpu: nat, t: Tid)
    requires Inv(s) && cpu < MAX_CPUS && t in s.threads
    ensures Age(s, cpu).threads[t] ==
            if exists p, i :: p > 0 && At(s, Slot(cpu, p, i), t) then Aged(s.threads[t]) else s.threads[t]
  {
    var levels := s.cpus[cpu].levels;
    forall p, i | 0 <= p < MAX_PRIORITY && levels[p].head <= i < |levels[p].accepted|
      ensures At(s, Slot(cpu, p, i), levels[p].accepted[i])
    {
    }
    forall p | 0 <= p < MAX_PRIORITY
      ensures LiveIn(levels[p], levels[p].head, t) <==> exists i :: At(s, Slot(cpu, p, i), t)
    {
      if LiveIn(levels[p], levels[p].head, t) {
        var j :| levels[p].head <= j < |levels[p].accepted| && levels[p].accepted[j] == t;
        assert At(s, Slot(cpu, p, j), t);
      }
    }
    AgedLevelsExact(s.threads, levels, MAX_PRIORITY - 1, t);
  }

  /** Ageing a thread that has waited long enough never lowers its next queue, except that priority 0 wraps around to
      the largest number, which is the lowest queue. */
  lemma AgeingPromotes(t: Thread)
    requires t.state == Runnable && t.waitTicks > AGE_THRESHOLD
    ensures SlotLevel(Aged(t)) <= SlotLevel(t) <==> t.dynamicPriority != 0
    ensures t.dynamicPriority == 0 ==> Aged(t).dynamicPriority == WORD - 1 && SlotLevel(Aged(t)) == MAX_PRIORITY - 1
  {
  }

  /** The thread is in a queue that the pass covers, has waited long enough, and has the highest priority already. */
  ghost predicate WouldWrap(s: Sched, cpu: nat, t: Tid) {
    && t in s.threads && s.threads[t].dynamicPriority == 0
    && s.threads[t].state == Runnable && s.threads[t].waitTicks > AGE_THRESHOLD
    && exists p, i :: p > 0 && At(s, Slot(cpu, p, i), t)
  }

  /** A pass sends no thread to a lower queue exactly when there is no such thread. */
  lemma PassPromotes(s: Sched, cpu: nat)
    requires Inv(s) && cpu < MAX_CPUS
    ensures Age(s, cpu).threads.Keys == s.threads.Keys
    ensures (forall t :: t in s.threads ==> SlotLevel(Age(s, cpu).threads[t]) <= SlotLevel(s.threads[t]))
       <==> forall t :: !WouldWrap(s, cpu, t)
  {
    var s' := Age(s, cpu);
    AgeInv(s, cpu);
    forall t | t in s.threads
      ensures SlotLevel(s'.threads[t]) <= SlotLevel(s.threads[t]) <==> !WouldWrap(s, cpu, t)
    {
      AgeExact(s, cpu, t);
    }
  }

  function AgedTimes(t: Thread, n: nat): Thread
    decreases n
  {
    if n == 0 then t else AgedTimes(Aged(t), n - 1)
  }

  lemma {:induction false} AgedTimesAdd(t: Thread, m: nat, n: nat)
    ensures AgedTimes(t, m + n) == AgedTimes(AgedTimes(t, m), n)
    decreases m
  {
    if m > 0 { AgedTimesAdd(Aged(t), m - 1, n); }
  }

  lemma {:induction false} WaitGrows(t: Thread, n: nat)
    requires t.state == Runnable && t.waitTicks + n <= AGE_THRESHOLD + 1
    ensures AgedTimes(t, n) == t.(waitTicks := t.waitTicks + n)
    decreases n
  {
    if n > 0 { WaitGrows(Aged(t), n - 1); }
  }

  /** A thread that is not runnable keeps its priority, however often it is aged. */
  lemma {:induction false} OnlyWaits(t: Thread, n: nat)
    requires t.state != Runnable
    ensures AgedTimes(t, n) == t.(waitTicks := (t.waitTicks + n) % WORD)
    decreases n
  {
    if n > 0 {
      OnlyWaits(Aged(t), n - 1);
      AddTicks(t.waitTicks, n - 1);
    }
  }

  lemma AddTicks(w: Word, n: nat)
    ensures ((w + 1) % WORD + n) % WORD == (w + 1 + n) % WORD
  {
  }

  lemma OneRound(t: Thread, n: nat)
    requires t.state == Runnable && t.waitTicks == 0 && n == AGE_THRESHOLD + 1
    ensures AgedTimes(t, n + 1) == t.(dynamicPriority := (t.dynamicPriority - 1) % WORD)
  {
    WaitGrows(t, n);
    AgedTimesAdd(t, n, 1);
  }

  lemma CountDown(d: Word, r: nat)
    ensures ((d - 1) % WORD - r) % WORD == (d - 1 - r) % WORD
  {
  }

  /** A runnable thread gains one level of priority every 52 passes. */
  lemma {:induction false} AgedRounds(t: Thread, rounds: nat)
    requires t.state == Runnable && t.waitTicks == 0
    ensures AgedTimes(t, 52 * rounds) == t.(dynamicPriority := (t.dynamicPriority - rounds) % WORD)
    decreases rounds
  {
    if rounds > 0 {
      OneRound(t, 51);
      AgedTimesAdd(t, 52, 52 * (rounds - 1));
      AgedRounds(t.(dynamicPriority := (t.dynamicPriority - 1) % WORD), rounds - 1);
      CountDown(t.dynamicPriority, rounds - 1);
    }
  }
}
