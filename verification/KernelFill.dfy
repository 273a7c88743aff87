/** `fillRunqueuesFromBST`: the process tree, walked in pid order, fills the run queues. */
module KernelFill {
  import opened SchedSpec
  import opened SchedSafety
  import opened SchedFill
  import opened SchedHandler
  import opened SchedBoot
  import SchedulerState
  import ProcessRegistry
  import RbTree

  type Process = RbTree.Process

  /** The chains of threads that the processes own. */
  type Chains = map<Process, seq<Tid>>

  /** The threads of a list of processes. */
  ghost function ThreadsOf(procs: seq<Process>, chains: Chains): seq<Tid>
    requires forall n <- procs :: n in chains
  {
    if procs == [] then [] else chains[procs[0]] + ThreadsOf(procs[1..], chains)
  }

  /** The chains follow each other in the order of the processes. */
  lemma {:induction false} ThreadsInOrder(a: seq<Process>, n: Process, b: seq<Process>, chains: Chains)
    requires n in chains && (forall m <- a :: m in chains) && (forall m <- b :: m in chains)
    ensures forall m <- a + [n] + b :: m in chains
    ensures ThreadsOf(a + [n] + b, chains) == ThreadsOf(a, chains) + chains[n] + ThreadsOf(b, chains)
    decreases |a|
  {
    var all := a + [n] + b;
    if a == [] {
      assert all[1..] == b;
    } else {
      assert all[1..] == a[1..] + [n] + b;
      ThreadsInOrder(a[1..], n, b, chains);
    }
  }

  /** Each thread is in the chain of its owner alone, and there once. */
  ghost predicate OwnChains(chains: Chains) {
    && (forall n, i, j :: n in chains && 0 <= i < j < |chains[n]| ==> chains[n][i] != chains[n][j])
    && (forall n, m, t :: n in chains && m in chains && t in chains[n] && t in chains[m] ==> n == m)
  }

  ghost predicate Distinct<T>(s: seq<T>) { forall i, j :: 0 <= i < j < |s| ==> s[i] != s[j] }

  lemma {:induction false} ThreadOwned(procs: seq<Process>, chains: Chains, t: Tid)
    requires forall n <- procs :: n in chains
    ensures t in ThreadsOf(procs, chains) <==> exists n <- procs :: t in chains[n]
  {
    if procs != [] {
      ThreadOwned(procs[1..], chains, t);
      assert forall n :: n in procs <==> n == procs[0] || n in procs[1..];
    }
  }

  /** No thread is listed twice. */
  lemma {:induction false} ThreadsDistinct(procs: seq<Process>, chains: Chains)
    requires (forall n <- procs :: n in chains) && OwnChains(chains) && Distinct(procs)
    ensures Distinct(ThreadsOf(procs, chains))
  {
    if procs != [] {
      var a, b := chains[procs[0]], ThreadsOf(procs[1..], chains);
      ThreadsDistinct(procs[1..], chains);
      assert forall n <- procs[1..] :: n != procs[0];
      forall t | t in a ensures t !in b { ThreadOwned(procs[1..], chains, t); }
      DistinctJoin(a, b);
    }
  }

  lemma DistinctJoin(a: seq<Tid>, b: seq<Tid>)
    requires Distinct(a) && Distinct(b) && forall t <- a :: t !in b
    ensures Distinct(a + b)
  {
    forall i, j | 0 <= i < j < |a + b| ensures (a + b)[i] != (a + b)[j] {
      assert i < |a| <= j ==> a[i] in a && b[j - |a|] in b;
    }
  }

  lemma FillSplit(s: Sched, procs: seq<Process>, chains: Chains, ncpus: nat)
    requires Shape(s) && ncpus <= MAX_CPUS && procs != [] && (forall n <- procs :: n in chains)
    requires forall t <- ThreadsOf(procs, chains) :: t in s.threads
    ensures (forall t <- chains[procs[0]] :: t in s.threads)
    ensures (forall t <- ThreadsOf(procs[1..], chains) :: t in s.threads)
    ensures Fill(s, ThreadsOf(procs, chains), ncpus)
         == Fill(Fill(s, chains[procs[0]], ncpus), ThreadsOf(procs[1..], chains), ncpus)
  {
    FillAppend(s, chains[procs[0]], ThreadsOf(procs[1..], chains), ncpus);
  }

  /** The callbacks of the traversal. */
  method EnqueueProcesses(sched: SchedulerState.Scheduler, visited: seq<Process>, chains: Chains, ncpus: nat)
    requires sched.Valid() && ncpus <= MAX_CPUS && forall n <- visited :: n in chains
    requires forall t <- ThreadsOf(visited, chains) :: t in sched.threads
    modifies sched`st, sched.queues, sched.tail, sched.threadsPerCPU
    ensures sched.Valid() && sched.st == Fill(old(sched.st), ThreadsOf(visited, chains), ncpus)
  {
    var rest := visited;
    while rest != []
      invariant (forall n <- rest :: n in chains) && sched.Valid() && sched.st.threads == old(sched.st.threads)
      invariant forall t <- ThreadsOf(rest, chains) :: t in sched.threads
      invariant Fill(old(sched.st), ThreadsOf(visited, chains), ncpus)
             == Fill(sched.st, ThreadsOf(rest, chains), ncpus)
      decreases |rest|
    {
      FillSplit(sched.st, rest, chains, ncpus);
      sched.EnqueueRunnableThread(chains[rest[0]], ncpus);
      rest := rest[1..];
    }
  }

  /** From empty queues, every runnable thread of every registered process is offered, each of them once, and no other
      thread: it then has one place in the queues, or is recorded as dropped. */
  method FillRunqueuesFromBST(reg: ProcessRegistry.Registry, sched: SchedulerState.Scheduler,
                              chains: Chains, ncpus: nat)
    requires reg.Valid() && sched.Valid() && ncpus <= MAX_CPUS
    requires forall n <- RbTree.Inorder(reg.tree) :: n in chains
    requires forall t <- ThreadsOf(RbTree.Inorder(reg.tree), chains) :: t in sched.threads
    modifies sched`st, sched.queues, sched.tail, sched.threadsPerCPU
    ensures sched.Valid()
    ensures sched.st == Fill(old(sched.st), ThreadsOf(RbTree.Inorder(reg.tree), chains), ncpus)
    ensures OwnChains(chains) ==> Distinct(ThreadsOf(RbTree.Inorder(reg.tree), chains))
    ensures OwnChains(chains) && Initial(old(sched.st)) ==> Offered(sched.st, RbTree.Inorder(reg.tree), chains)
  {
    var visited := reg.Traverse();
    EnqueueProcesses(sched, visited, chains, ncpus);
    if OwnChains(chains) {
      ThreadsDistinct(visited, chains);
      if Initial(old(sched.st)) { ProcessesOffered(old(sched.st), visited, chains, ncpus); }
    }
  }

  /** The runnable threads of the processes, and only they, were offered; each is in one slot or dropped. */
  ghost predicate Offered(s: Sched, procs: seq<Process>, chains: Chains)
    requires forall n <- procs :: n in chains
  {
    && Inv(s)
    && (forall t :: t in s.offered <==>
          t in s.threads && s.threads[t].state == Runnable && exists n <- procs :: t in chains[n])
    && (forall t :: t in s.offered ==> (t in s.dropped <==> !Placed(s, t)))
    && (forall t :: Placed(s, t) ==> t in s.offered)
  }

  lemma ProcessesOffered(s: Sched, procs: seq<Process>, chains: Chains, ncpus: nat)
    requires (forall n <- procs :: n in chains) && OwnChains(chains) && Distinct(procs)
    requires Initial(s) && ncpus <= MAX_CPUS && forall t <- ThreadsOf(procs, chains) :: t in s.threads
    ensures Offered(Fill(s, ThreadsOf(procs, chains), ncpus), procs, chains)
  {
    ThreadsDistinct(procs, chains);
    FillOffers(s, ThreadsOf(procs, chains), ncpus);
    forall t ensures t in ThreadsOf(procs, chains) <==> exists n <- procs :: t in chains[n] {
      ThreadOwned(procs, chains, t);
    }
  }

  /** What the fill starts, every run of the timer handlers keeps, whatever slices the CPUs in use had before: each
      runnable thread of each process has one place, in a queue or on a CPU, unless it is recorded as dropped, and no
      priority wraps around. */
  lemma BootedSystem(boot: Sched, early: seq<Tick>, procs: seq<Process>, chains: Chains, ncpus: nat, ticks: seq<Tick>,
                     n: Process, t: Tid)
    requires (forall m <- procs :: m in chains) && OwnChains(chains) && Distinct(procs)
    requires IsBoot(boot, early, ThreadsOf(procs, chains), ncpus, ticks)
    requires n in procs && t in chains[n] && t in AfterTicks(boot, early).threads
    requires AfterTicks(boot, early).threads[t].state == Runnable
    ensures var e := Booted(boot, early, ThreadsOf(procs, chains), ncpus, ticks);
      && Inv(e) && t in e.threads && (t in e.dropped <==> !Placed(e, t))
      && e.threads[t].dynamicPriority < MAX_PRIORITY
  {
    var s, ts := AfterTicks(boot, early), ThreadsOf(procs, chains);
    ThreadsDistinct(procs, chains);
    ThreadOwned(procs, chains, t);
    BootBalance(boot, early, ts, ncpus, ticks);
    var f := Fill(s, ts, ncpus);
    TicksAreRuns(f, ticks);
    RunHistory(f, Calls(ticks));
  }
}
