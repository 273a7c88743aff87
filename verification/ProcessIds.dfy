/** Sets of pids, and the counter that hands them out. */
module ProcessIds {
  import opened RbTree

  ghost function Pids(s: seq<Process>): set<Word> { set n | n in s :: n.pid }

  /** With distinct pids, deletion removes exactly its pid. */
  lemma RemovedPids(before: seq<Process>, s: seq<Process>, k: nat, n: Process)
    requires RemovedAt(before, s, k, n) && StrictlySorted(before)
    ensures StrictlySorted(s) && Pids(s) == Pids(before) - {n.pid}
  {
    RemovedIndex(before, s, k, n);
    forall pid ensures pid in Pids(s) <==> pid in Pids(before) && pid != n.pid { RemovedPid(before, s, k, n, pid); }
  }

  lemma RemovedPid(before: seq<Process>, s: seq<Process>, k: nat, n: Process, pid: Word)
    requires RemovedAt(before, s, k, n) && StrictlySorted(before)
    ensures pid in Pids(s) <==> pid in Pids(before) && pid != n.pid
  {
    RemovedIndex(before, s, k, n);
    if pid in Pids(s) {
      var i :| 0 <= i < |s| && s[i].pid == pid;
      assert s[i] == before[if i < k then i else i + 1];
    }
    if pid in Pids(before) && pid != n.pid {
      var i :| 0 <= i < |before| && before[i].pid == pid;
      assert s[if i < k then i else i - 1] == before[i];
    }
  }

  lemma RemovedIndex(before: seq<Process>, s: seq<Process>, k: nat, n: Process)
    requires RemovedAt(before, s, k, n)
    ensures |s| == |before| - 1 && forall i :: 0 <= i < |s| ==> s[i] == before[if i < k then i else i + 1]
  {
  }

  lemma InsertedAtIndex(before: seq<Process>, s: seq<Process>, k: nat, n: Process, i: nat)
    requires InsertedAt(before, s, k, n) && i < |before|
    ensures |s| == |before| + 1 && s[k] == n && s[if i < k then i else i + 1] == before[i]
    ensures if i < k then before[i].pid <= n.pid else n.pid < before[i].pid
  {
    if i < k {
      assert before[..k][i] == before[i];
    } else {
      assert before[k..][i - k] == before[i];
    }
  }

  lemma InsertedFresh(before: seq<Process>, s: seq<Process>, k: nat, n: Process)
    requires InsertedAt(before, s, k, n) && StrictlySorted(before) && n.pid !in Pids(before)
    ensures StrictlySorted(s)
  {
    forall i, j | 0 <= i < j < |s| ensures s[i].pid < s[j].pid {
      if i != k { InsertedAtIndex(before, s, k, n, if i < k then i else i - 1); }
      if j != k { InsertedAtIndex(before, s, k, n, if j < k then j else j - 1); }
      assert forall m <- before :: m.pid in Pids(before);
    }
  }

  /** Insertion adds its pid, and the pids stay distinct exactly when it is a fresh one. */
  lemma InsertedPids(before: seq<Process>, s: seq<Process>, k: nat, n: Process)
    requires InsertedAt(before, s, k, n) && StrictlySorted(before)
    ensures Pids(s) == Pids(before) + {n.pid}
    ensures StrictlySorted(s) <==> n.pid !in Pids(before)
  {
    InsertedNodes(before, s, k, n);
    assert forall m :: m in s <==> m in (set m' | m' in s);
    if n.pid !in Pids(before) {
      InsertedFresh(before, s, k, n);
    } else {
      var i :| 0 <= i < |before| && before[i].pid == n.pid;
      InsertedAtIndex(before, s, k, n, i);
    }
  }

  // ----- Process ids -----

  /** The pid that the i-th call of `getProcessID` for a kernel process hands out. */
  function PidAt(i: nat): Word { (20 + i) % WORD }

  lemma NextPid(i: nat)
    ensures PidAt(i + 1) == (PidAt(i) + 1) % WORD
  {
  }

  /** Pids repeat exactly after the 32-bit counter has wrapped. */
  lemma PidsRepeat(i: nat, j: nat)
    ensures PidAt(i) == PidAt(j) <==> (i - j) % WORD == 0
  {
    if PidAt(i) == PidAt(j) {
      assert (20 + i) - (20 + j) == WORD * ((20 + i) / WORD - (20 + j) / WORD);
      MultipleMod((20 + i) / WORD - (20 + j) / WORD);
    } else if (i - j) % WORD == 0 {
      var q := (i - j) / WORD;
      assert 20 + i == 20 + j + WORD * q;
      ShiftMod(20 + j, q);
    }
  }

  lemma MultipleMod(q: int)
    ensures (WORD * q) % WORD == 0
  {
  }

  lemma ShiftMod(n: int, q: int)
    ensures (n + WORD * q) % WORD == n % WORD
  {
    var a := n / WORD;
    assert n + WORD * q == WORD * (a + q) + n % WORD;
  }

  /** Every pid in use was handed out by one of the first `created` calls. */
  ghost predicate HandedOut(s: seq<Process>, created: nat) {
    && (forall n <- s :: exists i :: 1 <= i <= created && n.pid == PidAt(i))
    && (created <= WORD ==> StrictlySorted(s))
  }

  /** Until the counter has gone all the way round, a new process gets a pid that nobody has. */
  lemma FreshPid(s: seq<Process>, created: nat)
    requires HandedOut(s, created) && created < WORD
    ensures PidAt(created + 1) !in Pids(s)
  {
    forall n <- s ensures n.pid != PidAt(created + 1) {
      var i :| 1 <= i <= created && n.pid == PidAt(i);
      PidsRepeat(created + 1, i);
    }
  }

  lemma HandedOutInsert(before: seq<Process>, s: seq<Process>, k: nat, n: Process, created: nat)
    requires HandedOut(before, created) && InsertedAt(before, s, k, n) && n.pid == PidAt(created + 1)
    ensures HandedOut(s, created + 1)
    ensures created < WORD ==> n.pid !in Pids(before) && Pids(s) == Pids(before) + {n.pid}
  {
    if created < WORD {
      FreshPid(before, created);
      InsertedPids(before, s, k, n);
    }
    forall m <- s ensures exists i :: 1 <= i <= created + 1 && m.pid == PidAt(i) {
      if m != n {
        InsertedNodes(before, s, k, n);
        assert m in (set m' | m' in s);
        assert m in before;
        var i :| 1 <= i <= created && m.pid == PidAt(i);
      }
    }
  }

  /** What `rbDelete` does to the sequence of processes: at most one of them goes, one that has the pid. */
  ghost predicate Deleted(before: seq<Process>, s: seq<Process>, k: nat, pid: Word) {
    if exists n <- before :: n.pid == pid
    then k < |before| && before[k].pid == pid && RemovedAt(before, s, k, before[k])
    else s == before
  }

  lemma DeletedPids(before: seq<Process>, s: seq<Process>, k: nat, pid: Word)
    requires Deleted(before, s, k, pid) && StrictlySorted(before)
    ensures StrictlySorted(s) && Pids(s) == Pids(before) - {pid}
  {
    if exists n <- before :: n.pid == pid { RemovedPids(before, s, k, before[k]); }
  }

  lemma HandedOutDelete(before: seq<Process>, s: seq<Process>, k: nat, pid: Word, created: nat)
    requires HandedOut(before, created) && Deleted(before, s, k, pid)
    ensures HandedOut(s, created)
    ensures created <= WORD ==> Pids(s) == Pids(before) - {pid}
  {
    if created <= WORD { DeletedPids(before, s, k, pid); }
    if exists n <- before :: n.pid == pid {
      assert forall i :: 0 <= i < |s| ==> s[i] == before[if i < k then i else i + 1];
      assert forall m <- s :: m in before;
    }
  }
}
