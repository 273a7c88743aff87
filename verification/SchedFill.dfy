/** The one fill of the queues from the process tree: offers, order and balance. */
module SchedFill {
  import opened SchedSpec
  import opened SchedSafety

  /** Nothing queued, nothing running. */
  ghost predicate Initial(s: Sched) {
    && Shape(s) && s.offered == {} && s.dropped == {}
    && (forall c, p :: 0 <= c < MAX_CPUS && 0 <= p < MAX_PRIORITY ==> s.cpus[c].levels[p].accepted == [])
    && (forall c :: 0 <= c < MAX_CPUS ==> s.cpus[c].current == None)
    && (forall t :: t in s.threads ==> s.threads[t].state != Running)
  }

  lemma {:induction false} FillAppend(s: Sched, a: seq<Tid>, b: seq<Tid>, ncpus: nat)
    requires Shape(s) && ncpus <= MAX_CPUS && (forall t <- a + b :: t in s.threads)
    ensures (forall t <- a :: t in s.threads) && (forall t <- b :: t in s.threads)
    ensures Fill(s, a + b, ncpus) == Fill(Fill(s, a, ncpus), b, ncpus)
    decreases a
  {
    assert forall t <- a :: t in a + b;
    assert forall t <- b :: t in a + b;
    if a == [] {
      assert a + b == b;
    } else {
      var cpu := LeastLoaded(s, ncpus);
      EnqueueIfRunnableShape(s, a[0], cpu);
      assert (a + b)[1..] == a[1..] + b;
      FillAppend(EnqueueIfRunnable(s, a[0], cpu), a[1..], b, ncpus);
    }
  }

  /** Filling with one more thread: it goes to the CPU with the least load at that time. */
  lemma FillOneMore(s: Sched, ts: seq<Tid>, t: Tid, ncpus: nat)
    requires Shape(s) && ncpus <= MAX_CPUS && (forall u <- ts + [t] :: u in s.threads)
    ensures t in s.threads && (forall u <- ts :: u in s.threads)
    ensures var f := Fill(s, ts, ncpus);
      Fill(s, ts + [t], ncpus) == EnqueueIfRunnable(f, t, LeastLoaded(f, ncpus))
  {
    FillAppend(s, ts, [t], ncpus);
    var f := Fill(s, ts, ncpus);
    EnqueueIfRunnableShape(f, t, LeastLoaded(f, ncpus));
    assert t in ts + [t];
    assert [t][1..] == [];
  }

  // ----- Offers -----

  ghost predicate Filling(s: Sched, ts: seq<Tid>) {
    && Inv(s) && (forall c, t :: !At(s, On(c), t))
    && (forall t :: t in s.threads ==> s.threads[t].state != Running)
    && (forall t :: Placed(s, t) ==> t in s.offered)
    && (forall t :: t in s.offered <==> t in ts && t in s.threads && s.threads[t].state == Runnable)
  }

  lemma InitialFilling(s: Sched)
    requires Initial(s)
    ensures Filling(s, [])
  {
    forall place, t ensures !At(s, place, t) { }
  }

  lemma OfferNext(s: Sched, ts: seq<Tid>, t: Tid, cpu: nat)
    requires Filling(s, ts) && cpu < MAX_CPUS && t in s.threads && t !in ts
    ensures Filling(EnqueueIfRunnable(s, t, cpu), ts + [t])
  {
    if s.threads[t].state == Runnable {
      var s' := Enqueue(s, t, cpu);
      EnqueueInv(s, t, cpu);
      forall c, u ensures !At(s', On(c), u) { EnqueueAt(s, t, cpu, On(c), u); }
      forall u | Placed(s', u) ensures u in s'.offered {
        var place :| At(s', place, u);
        EnqueueAt(s, t, cpu, place, u);
        assert At(s, place, u) ==> Placed(s, u);
      }
    }
  }

  /** From empty queues, the fill offers exactly the runnable threads of the list, each of them once: afterwards each
      has one place, or is recorded as dropped. */
  lemma {:induction false} FillOffers(s: Sched, ts: seq<Tid>, ncpus: nat)
    requires Initial(s) && ncpus <= MAX_CPUS && (forall t <- ts :: t in s.threads)
    requires forall i, j :: 0 <= i < j < |ts| ==> ts[i] != ts[j]
    ensures Filling(Fill(s, ts, ncpus), ts)
    decreases |ts|
  {
    if ts == [] {
      InitialFilling(s);
    } else {
      var n := |ts| - 1;
      assert ts == ts[..n] + [ts[n]];
      FillOffers(s, ts[..n], ncpus);
      FillOneMore(s, ts[..n], ts[n], ncpus);
      var f := Fill(s, ts[..n], ncpus);
      OfferNext(f, ts[..n], ts[n], LeastLoaded(f, ncpus));
    }
  }

  /** After the fill and any run of schedule and ageThreads on any CPUs, each thread that was offered at boot is in
      exactly one queue slot or running on exactly one CPU, unless it is recorded as dropped. */
  lemma FillThenRun(s: Sched, ts: seq<Tid>, ncpus: nat, run: seq<Step>)
    requires Initial(s) && ncpus <= MAX_CPUS && (forall t <- ts :: t in s.threads)
    requires forall i, j :: 0 <= i < j < |ts| ==> ts[i] != ts[j]
    requires IsRun(Fill(s, ts, ncpus), run)
    ensures var e := Final(Fill(s, ts, ncpus), run);
      && Inv(e)
      && forall t <- ts :: s.threads[t].state == Runnable ==> (t in e.dropped <==> !Placed(e, t))
  {
    FillOffers(s, ts, ncpus);
    var f := Fill(s, ts, ncpus);
    RunInv(f, run);
    RunHistory(f, run);
  }

  // ----- Order -----

  ghost predicate Subsequence(a: seq<Tid>, b: seq<Tid>)
    decreases |b|
  {
    a == [] || (b != [] && (Subsequence(a, b[..|b| - 1])
                            || (a[|a| - 1] == b[|b| - 1] && Subsequence(a[..|a| - 1], b[..|b| - 1]))))
  }

  /** Every queue holds its threads in the order of the list, which follows the pids. */
  lemma {:induction false} FillOrder(s: Sched, ts: seq<Tid>, ncpus: nat, c: nat, p: nat)
    requires Initial(s) && ncpus <= MAX_CPUS && (forall t <- ts :: t in s.threads) && c < MAX_CPUS && p < MAX_PRIORITY
    ensures Subsequence(Fill(s, ts, ncpus).cpus[c].levels[p].accepted, ts)
    decreases |ts|
  {
    if ts != [] {
      var n := |ts| - 1;
      assert ts == ts[..n] + [ts[n]];
      FillOrder(s, ts[..n], ncpus, c, p);
      FillOneMore(s, ts[..n], ts[n], ncpus);
      var f := Fill(s, ts[..n], ncpus);
      OfferAccepted(f, ts[n], LeastLoaded(f, ncpus), c, p);
      SubsequenceStep(f.cpus[c].levels[p].accepted, Fill(s, ts, ncpus).cpus[c].levels[p].accepted, ts[..n], ts[n]);
    }
  }

  lemma SubsequenceStep(a: seq<Tid>, a': seq<Tid>, b: seq<Tid>, t: Tid)
    requires Subsequence(a, b) && (a' == a || a' == a + [t])
    ensures Subsequence(a', b + [t])
  {
    assert (b + [t])[..|b|] == b;
    if a' == a + [t] { assert a'[..|a|] == a; }
  }

  lemma OfferAccepted(s: Sched, t: Tid, cpu: nat, c: nat, p: nat)
    requires Shape(s) && t in s.threads && cpu < MAX_CPUS && c < MAX_CPUS && p < MAX_PRIORITY
    ensures Shape(EnqueueIfRunnable(s, t, cpu))
    ensures var a, a' := s.cpus[c].levels[p].accepted, EnqueueIfRunnable(s, t, cpu).cpus[c].levels[p].accepted;
      a' == a || a' == a + [t]
  {
    EnqueueIfRunnableShape(s, t, cpu);
  }

  // ----- Balance -----

  ghost predicate Balanced(s: Sched, ncpus: nat) {
    && |s.cpus| == MAX_CPUS
    && forall i, j :: 0 <= i < ncpus && 0 <= j < ncpus && ncpus <= MAX_CPUS ==>
         s.cpus[i].load <= s.cpus[j].load + 1
  }

  lemma OfferBalanced(s: Sched, t: Tid, ncpus: nat)
    requires Shape(s) && t in s.threads && 0 < ncpus <= MAX_CPUS && Balanced(s, ncpus)
    ensures Balanced(EnqueueIfRunnable(s, t, LeastLoaded(s, ncpus)), ncpus)
  {
    FirstLeast(s, ncpus);
    OfferLoads(s, t, LeastLoaded(s, ncpus));
  }

  lemma OfferLoads(s: Sched, t: Tid, cpu: nat)
    requires Shape(s) && t in s.threads && cpu < MAX_CPUS
    ensures var s' := EnqueueIfRunnable(s, t, cpu);
      && |s'.cpus| == MAX_CPUS
      && (forall c :: 0 <= c < MAX_CPUS && c != cpu ==> s'.cpus[c].load == s.cpus[c].load)
      && s.cpus[cpu].load <= s'.cpus[cpu].load <= s.cpus[cpu].load + 1
  {
    LiveBound(s.cpus[cpu].levels, 0);
  }

  /** At every moment of the fill the loads of the CPUs in use differ by one at most, dropped threads or not. */
  lemma {:induction false} FillBalanced(s: Sched, ts: seq<Tid>, ncpus: nat, k: nat)
    requires Initial(s) && 0 < ncpus <= MAX_CPUS && (forall t <- ts :: t in s.threads) && k <= |ts|
    ensures (forall t <- ts[..k] :: t in s.threads) && Balanced(Fill(s, ts[..k], ncpus), ncpus)
    decreases k
  {
    if k == 0 {
      forall c | 0 <= c < MAX_CPUS ensures s.cpus[c].load == 0 { EmptyLoad(s.cpus[c].levels, 0); }
    } else {
      FillBalanced(s, ts, ncpus, k - 1);
      assert ts[..k] == ts[..k - 1] + [ts[k - 1]];
      FillOneMore(s, ts[..k - 1], ts[k - 1], ncpus);
      OfferBalanced(Fill(s, ts[..k - 1], ncpus), ts[k - 1], ncpus);
    }
  }

  lemma {:induction false} EmptyLoad(levels: seq<Level>, p: nat)
    requires p <= |levels| && LevelsOk(levels) && forall q :: 0 <= q < |levels| ==> levels[q].accepted == []
    ensures LiveFrom(levels, p) == 0
    decreases |levels| - p
  {
    if p < |levels| { EmptyLoad(levels, p + 1); }
  }
}
