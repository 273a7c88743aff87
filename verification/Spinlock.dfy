/** The spinlock at instruction granularity: any number of CPUs, any interleaving, interrupts included. */
module Spinlock {
  /** Where a control flow stands with respect to the lock. Each value names the next instruction to execute. */
  datatype Pc =
    | Outside       // not in the lock's code
    | AcqCli        // acquire: holding() starts by disabling interrupts
    | AcqLocked     // holding() reads lock->locked
    | AcqCpu        // holding() reads lock->cpu
    | AcqCli2       // acquire disables interrupts itself
    | AcqXchg       // the spin loop's atomic exchange
    | AcqSetCpu     // lock->cpu = own id
    | Critical      // between acquire and release
    | RelCli        // release: holding() disables interrupts
    | RelLocked     // holding() reads lock->locked
    | RelCpu        // holding() reads lock->cpu
    | RelStore      // lock->locked = 0
    | RelClearCpu   // lock->cpu = 0
    | RelSti        // interrupts back on

  /** A CPU runs the last of its frames; the others are suspended by timer interrupts. `held` is holding()'s answer. */
  datatype Frame = Frame(pc: Pc, held: bool)

  datatype Cpu = Cpu(frames: seq<Frame>, interrupts: bool)

  datatype State = State(locked: nat, owner: nat, cpus: seq<Cpu>)

  ghost predicate Shape(s: State) {
    forall c :: 0 <= c < |s.cpus| ==> s.cpus[c].frames != []
  }

  function Top(cpu: Cpu): Frame
    requires cpu.frames != []
  {
    cpu.frames[|cpu.frames| - 1]
  }

  function WithTop(cpu: Cpu, f: Frame, interrupts: bool): Cpu
    requires cpu.frames != []
  {
    Cpu(cpu.frames[..|cpu.frames| - 1] + [f], interrupts)
  }

  /** `initLock`, with one frame per CPU. */
  function Init(interrupts: seq<bool>): State {
    State(0, 0, seq(|interrupts|, c requires 0 <= c < |interrupts| => Cpu([Frame(Outside, false)], interrupts[c])))
  }

  /** What a CPU can do next: call acquire, call release, execute one instruction of either, take a timer interrupt
      when interrupts are on, return from one, or leave its handler for another thread. switchTask does the last:
      it drops the handler's frame and continues a frame that was suspended, here or on another CPU, or a new one. */
  datatype Action = CallAcquire | CallRelease | Instruction | Interrupt | Return | Switch(frame: Frame, on: bool)

  ghost predicate Enabled(s: State, c: nat, a: Action) {
    && Shape(s) && c < |s.cpus|
    && var cpu := s.cpus[c]; var pc := Top(cpu).pc;
      match a
      case CallAcquire => pc == Outside
      case CallRelease => pc == Critical
      case Instruction => pc != Outside && pc != Critical
      case Interrupt => cpu.interrupts
      case Return => pc == Outside && |cpu.frames| > 1
      case Switch(frame, _) => pc == Outside && |cpu.frames| > 1 && Interruptible(frame.pc)
  }

  /** What one step of a CPU can see and change: the lock's fields, its running frame and its interrupt flag. */
  datatype View = View(locked: nat, owner: nat, frame: Frame, on: bool)

  /** The next instruction of a control flow, or its call of acquire or release, on the CPU with APIC id `id`. */
  function Advance(v: View, id: nat): View {
    var f := v.frame;
    match f.pc
    case Outside => v.(frame := f.(pc := AcqCli))
    case AcqCli => v.(frame := f.(pc := AcqLocked), on := false)
    case AcqLocked => v.(frame := if v.locked != 0 then f.(pc := AcqCpu) else Frame(AcqCli2, false))
    case AcqCpu => v.(frame := Frame(AcqCli2, v.owner == id))
    case AcqCli2 => v.(frame := f.(pc := AcqXchg), on := false)
    case AcqXchg => v.(locked := 1, frame := if v.locked == 0 then f.(pc := AcqSetCpu) else f)
    case AcqSetCpu => v.(owner := id, frame := f.(pc := Critical))
    case Critical => v.(frame := f.(pc := RelCli))
    case RelCli => v.(frame := f.(pc := RelLocked), on := false)
    case RelLocked => v.(frame := if v.locked != 0 then f.(pc := RelCpu) else Frame(RelStore, false))
    case RelCpu => v.(frame := Frame(RelStore, v.owner == id))
    case RelStore => v.(locked := 0, frame := f.(pc := RelClearCpu))
    case RelClearCpu => v.(owner := 0, frame := f.(pc := RelSti))
    case RelSti => v.(frame := f.(pc := Outside), on := true)
  }

  ghost function ViewOf(s: State, c: nat): View
    requires Shape(s) && c < |s.cpus|
  {
    View(s.locked, s.owner, Top(s.cpus[c]), s.cpus[c].interrupts)
  }

  ghost function Put(s: State, c: nat, v: View): State
    requires Shape(s) && c < |s.cpus|
  {
    State(v.locked, v.owner, s.cpus[c := WithTop(s.cpus[c], v.frame, v.on)])
  }

  /** One step of CPU c. */
  ghost function Next(s: State, c: nat, a: Action, id: nat): State
    requires Enabled(s, c, a)
  {
    var cpu := s.cpus[c];
    match a
    case Interrupt => s.(cpus := s.cpus[c := Cpu(cpu.frames + [Frame(Outside, false)], false)])
    case Return => s.(cpus := s.cpus[c := Cpu(cpu.frames[..|cpu.frames| - 1], true)])
    case Switch(frame, on) => Put(s, c, View(s.locked, s.owner, frame, on))
    case _ => Put(s, c, Advance(ViewOf(s, c), id))
  }

  // ----- The invariant -----

  /** From the exchange that won the lock up to the store that releases it. */
  predicate InRegion(pc: Pc) { pc in {AcqSetCpu, Critical, RelCli, RelLocked, RelCpu, RelStore} }

  predicate Interruptible(pc: Pc) { pc == Outside || pc == AcqCli }

  ghost predicate Holder(s: State, c: nat)
    requires Shape(s)
  {
    c < |s.cpus| && InRegion(Top(s.cpus[c]).pc)
  }

  /** Suspended frames are outside the lock's code, and so is a running frame with interrupts on. */
  ghost predicate CpuOk(cpu: Cpu) {
    && cpu.frames != []
    && (forall i :: 0 <= i < |cpu.frames| - 1 ==> Interruptible(cpu.frames[i].pc))
    && (cpu.interrupts ==> Interruptible(Top(cpu).pc))
  }

  ghost predicate Inv(s: State) {
    && Shape(s) && s.locked <= 1
    && (forall c :: 0 <= c < |s.cpus| ==> CpuOk(s.cpus[c]))
    && (forall c: nat, d: nat :: Holder(s, c) && Holder(s, d) ==> c == d)
    && (s.locked == 1 <==> exists c: nat :: Holder(s, c))
  }

  lemma NextCpuOk(s: State, c: nat, a: Action, id: nat)
    requires Inv(s) && Enabled(s, c, a)
    ensures var s' := Next(s, c, a, id); Shape(s') && |s'.cpus| == |s.cpus| && CpuOk(s'.cpus[c])
    ensures var s' := Next(s, c, a, id); forall d :: 0 <= d < |s.cpus| && d != c ==> s'.cpus[d] == s.cpus[d]
  {
    var s', f := Next(s, c, a, id), Top(s.cpus[c]);
    assert CpuOk(s.cpus[c]);
    if a == Instruction { assert s'.cpus[c].frames == s.cpus[c].frames[..|s.cpus[c].frames| - 1] + [Top(s'.cpus[c])]; }
  }

  /** Only the winning exchange makes a holder, and only the release store unmakes one. */
  lemma NextHolders(s: State, c: nat, a: Action, id: nat)
    requires Inv(s) && Enabled(s, c, a)
    ensures var s' := Next(s, c, a, id); var pc := Top(s.cpus[c]).pc;
      && Shape(s')
      && (forall d: nat :: d != c ==> (Holder(s', d) <==> Holder(s, d)))
      && (if a == Instruction && pc == AcqXchg then s'.locked == 1 && (Holder(s', c) <==> s.locked == 0)
          else if a == Instruction && pc == RelStore then s'.locked == 0 && !Holder(s', c)
          else s'.locked == s.locked && (Holder(s', c) <==> Holder(s, c)))
  {
    NextCpuOk(s, c, a, id);
    assert CpuOk(s.cpus[c]);
  }

  lemma NextInv(s: State, c: nat, a: Action, id: nat)
    requires Inv(s) && Enabled(s, c, a)
    ensures Inv(Next(s, c, a, id))
  {
    var s', pc := Next(s, c, a, id), Top(s.cpus[c]).pc;
    NextCpuOk(s, c, a, id);
    NextHolders(s, c, a, id);
    if a == Instruction && pc == RelStore {
      assert Holder(s, c);
    } else if exists d: nat :: Holder(s, d) {
      var d: nat :| Holder(s, d);
      assert Holder(s', d);
    }
  }

  // ----- Runs -----

  datatype Event = Event(cpu: nat, action: Action)

  ghost predicate IsRun(s: State, run: seq<Event>, ids: nat -> nat)
    decreases |run|
  {
    run == [] || (Enabled(s, run[0].cpu, run[0].action) && IsRun(Step(s, run[0], ids), run[1..], ids))
  }

  ghost function Step(s: State, e: Event, ids: nat -> nat): State
    requires Enabled(s, e.cpu, e.action)
  {
    Next(s, e.cpu, e.action, ids(e.cpu))
  }

  ghost function Final(s: State, run: seq<Event>, ids: nat -> nat): State
    requires IsRun(s, run, ids)
    decreases |run|
  {
    if run == [] then s else Final(Step(s, run[0], ids), run[1..], ids)
  }

  lemma InitInv(interrupts: seq<bool>)
    ensures Inv(Init(interrupts))
  {
  }

  lemma {:induction false} RunInv(s: State, run: seq<Event>, ids: nat -> nat)
    requires Inv(s) && IsRun(s, run, ids)
    ensures Inv(Final(s, run, ids)) && |Final(s, run, ids).cpus| == |s.cpus|
    decreases |run|
  {
    if run != [] {
      NextInv(s, run[0].cpu, run[0].action, ids(run[0].cpu));
      NextCpuOk(s, run[0].cpu, run[0].action, ids(run[0].cpu));
      RunInv(Step(s, run[0], ids), run[1..], ids);
    }
  }

  /** Frame i of CPU c, running or suspended, owns the lock. */
  ghost predicate Owns(s: State, c: nat, i: nat) {
    c < |s.cpus| && i < |s.cpus[c].frames| && InRegion(s.cpus[c].frames[i].pc)
  }

  /** In every run from a freshly initialised lock: at most one control flow of one CPU owns the lock, counting the
      suspended ones; `locked` is 1 exactly while one does; and the owner's CPU takes no interrupt, so its own timer
      handler cannot come to wait for the lock. */
  lemma MutualExclusion(interrupts: seq<bool>, run: seq<Event>, ids: nat -> nat)
    requires IsRun(Init(interrupts), run, ids)
    ensures var s := Final(Init(interrupts), run, ids);
      && (forall c: nat, i: nat, d: nat, j: nat :: Owns(s, c, i) && Owns(s, d, j) ==> c == d && i == j)
      && s.locked <= 1 && (s.locked == 1 <==> exists c: nat, i: nat :: Owns(s, c, i))
      && (forall c: nat, i: nat :: Owns(s, c, i) ==> !s.cpus[c].interrupts && !Enabled(s, c, Interrupt))
  {
    InitInv(interrupts);
    RunInv(Init(interrupts), run, ids);
    var s := Final(Init(interrupts), run, ids);
    forall c: nat, i: nat | Owns(s, c, i) ensures i == |s.cpus[c].frames| - 1 && Holder(s, c) {
      assert CpuOk(s.cpus[c]);
    }
    if s.locked == 1 {
      var c: nat :| Holder(s, c);
      assert Owns(s, c, |s.cpus[c].frames| - 1);
    }
  }

  // ----- Progress of the owner -----

  /** Instructions and calls the owner still has to do before its release store is done. */
  function Distance(pc: Pc): nat {
    match pc
    case AcqSetCpu => 6 case Critical => 5 case RelCli => 4 case RelLocked => 3 case RelCpu => 2 case RelStore => 1
    case _ => 0
  }

  /** The owner never waits: its next step is enabled whatever the others did, and brings the release closer. */
  lemma OwnerProgress(s: State, c: nat, id: nat)
    requires Inv(s) && Holder(s, c)
    ensures var pc := Top(s.cpus[c]).pc; var a := if pc == Critical then CallRelease else Instruction;
      && Enabled(s, c, a) && Inv(Next(s, c, a, id))
      && Distance(Top(Next(s, c, a, id).cpus[c]).pc) < Distance(pc)
      && (pc == RelStore ==> Next(s, c, a, id).locked == 0)
  {
    var a := if Top(s.cpus[c]).pc == Critical then CallRelease else Instruction;
    NextInv(s, c, a, id);
  }

  // ----- The owner record -----

  /** c owns the lock and has stored its id. */
  ghost predicate Recorded(s: State, c: nat)
    requires Shape(s)
  {
    Holder(s, c) && Top(s.cpus[c]).pc != AcqSetCpu
  }

  /** Another CPU has released the lock but not yet cleared `cpu`, which release does too late. */
  ghost predicate ClearPending(s: State) {
    Shape(s) && exists d :: 0 <= d < |s.cpus| && Top(s.cpus[d]).pc == RelClearCpu
  }

  /** holding() can be trusted: the record is right, and no late clear can still spoil it. */
  ghost predicate RecordSafe(s: State, c: nat, ids: nat -> nat)
    requires Shape(s)
  {
    s.owner == ids(c) && (ids(c) == 0 || !ClearPending(s))
  }

  /** c keeps the lock all through the run. */
  ghost predicate Keeps(s: State, run: seq<Event>, ids: nat -> nat, c: nat)
    requires IsRun(s, run, ids)
    decreases |run|
  {
    Shape(s) && Recorded(s, c) && (run != [] ==> Keeps(Step(s, run[0], ids), run[1..], ids, c))
  }

  /** If c keeps the lock through the run, its id is still on record at the end. */
  ghost predicate RecordedAfter(s: State, run: seq<Event>, ids: nat -> nat, c: nat) {
    IsRun(s, run, ids) && Keeps(s, run, ids, c) ==> Final(s, run, ids).owner == ids(c)
  }

  lemma StepRecord(s: State, e: Event, ids: nat -> nat, c: nat)
    requires Inv(s) && Recorded(s, c) && RecordSafe(s, c, ids) && Enabled(s, e.cpu, e.action)
    ensures Inv(Step(s, e, ids))
    ensures Recorded(Step(s, e, ids), c) ==> RecordSafe(Step(s, e, ids), c, ids)
  {
    NextInv(s, e.cpu, e.action, ids(e.cpu));
    NextCpuOk(s, e.cpu, e.action, ids(e.cpu));
    var s' := Step(s, e, ids);
    assert CpuOk(s.cpus[e.cpu]);
    assert Holder(s, e.cpu) ==> e.cpu == c;
    if Recorded(s', c) && ids(c) != 0 {
      forall d | 0 <= d < |s'.cpus| ensures Top(s'.cpus[d]).pc != RelClearCpu { }
    }
  }

  lemma {:induction false} RecordStays(s: State, run: seq<Event>, ids: nat -> nat, c: nat)
    requires Inv(s) && Recorded(s, c) && RecordSafe(s, c, ids) && IsRun(s, run, ids) && Keeps(s, run, ids, c)
    ensures Final(s, run, ids).owner == ids(c)
    decreases |run|
  {
    if run != [] {
      StepRecord(s, run[0], ids, c);
      RecordStays(Step(s, run[0], ids), run[1..], ids, c);
    }
  }

  lemma OneEvent(s: State, e: Event, ids: nat -> nat)
    requires Enabled(s, e.cpu, e.action)
    ensures IsRun(s, [e], ids) && Final(s, [e], ids) == Step(s, e, ids)
  {
    var t := Step(s, e, ids);
    assert [e][1..] == [] && IsRun(t, [], ids) && Final(t, [], ids) == t;
  }

  /** The owner's own test in release succeeds in every continuation exactly when the record is right and no other CPU
      is still about to clear it (a CPU with APIC id 0 is not harmed by a clear). */
  lemma RecordReliable(s: State, ids: nat -> nat, c: nat)
    requires Inv(s) && Recorded(s, c)
    ensures RecordSafe(s, c, ids) <==> forall run :: RecordedAfter(s, run, ids, c)
  {
    if RecordSafe(s, c, ids) {
      forall run ensures RecordedAfter(s, run, ids, c) {
        if IsRun(s, run, ids) && Keeps(s, run, ids, c) { RecordStays(s, run, ids, c); }
      }
    } else if s.owner != ids(c) {
      var stay: seq<Event> := [];
      assert IsRun(s, stay, ids) && Keeps(s, stay, ids, c) && Final(s, stay, ids) == s;
      assert !RecordedAfter(s, stay, ids, c);
    } else {
      var d: nat :| d < |s.cpus| && Top(s.cpus[d]).pc == RelClearCpu;
      var e := Event(d, Instruction);
      var s' := Step(s, e, ids);
      NextInv(s, d, Instruction, ids(d));
      NextCpuOk(s, d, Instruction, ids(d));
      assert s'.owner == 0 && Recorded(s', c);
      var late: seq<Event> := [e];
      OneEvent(s, e, ids);
      assert late[1..] == [] && Keeps(s', [], ids, c) && Keeps(s, late, ids, c);
      assert !RecordedAfter(s, late, ids, c);
    }
  }

  // ----- Calls that nobody disturbs -----

  ghost predicate Reaches(s: State, s': State, ids: nat -> nat) {
    exists run :: IsRun(s, run, ids) && Final(s, run, ids) == s'
  }

  lemma ReachesNext(s: State, e: Event, t: State, ids: nat -> nat)
    requires Enabled(s, e.cpu, e.action) && Reaches(Step(s, e, ids), t, ids)
    ensures Reaches(s, t, ids)
  {
    var rest :| IsRun(Step(s, e, ids), rest, ids) && Final(Step(s, e, ids), rest, ids) == t;
    var run := [e] + rest;
    assert run[1..] == rest;
    assert IsRun(s, run, ids) && Final(s, run, ids) == t;
  }

  lemma ReachesSelf(s: State, ids: nat -> nat)
    ensures Reaches(s, s, ids)
  {
    assert IsRun(s, [], ids) && Final(s, [], ids) == s;
  }

  lemma {:induction false} ReachesOver(s: State, run: seq<Event>, t: State, ids: nat -> nat)
    requires IsRun(s, run, ids) && Reaches(Final(s, run, ids), t, ids)
    ensures Reaches(s, t, ids)
    decreases |run|
  {
    if run != [] {
      ReachesOver(Step(s, run[0], ids), run[1..], t, ids);
      ReachesNext(s, run[0], t, ids);
    }
  }

  lemma ReachesOn(s: State, t: State, u: State, ids: nat -> nat)
    requires Reaches(s, t, ids) && Reaches(t, u, ids)
    ensures Reaches(s, u, ids)
  {
    var run :| IsRun(s, run, ids) && Final(s, run, ids) == t;
    ReachesOver(s, run, u, ids);
  }

  /** One more step of CPU c, which nobody disturbs. */
  lemma AdvanceOne(s: State, c: nat, v: View, t: State, ids: nat -> nat)
    requires Shape(s) && c < |s.cpus| && Reaches(Put(s, c, Advance(v, ids(c))), t, ids)
    ensures Reaches(Put(s, c, v), t, ids)
  {
    var s1 := Put(s, c, v);
    var a := if v.frame.pc == Outside then CallAcquire else if v.frame.pc == Critical then CallRelease else Instruction;
    assert ViewOf(s1, c) == v;
    assert Step(s1, Event(c, a), ids) == Put(s, c, Advance(v, ids(c)));
    ReachesNext(s1, Event(c, a), t, ids);
  }

  function AdvanceTimes(v: View, id: nat, n: nat): View
    decreases n
  {
    if n == 0 then v else AdvanceTimes(Advance(v, id), id, n - 1)
  }

  lemma {:induction false} Undisturbed(s: State, c: nat, v: View, n: nat, ids: nat -> nat)
    requires Shape(s) && c < |s.cpus|
    ensures Reaches(Put(s, c, v), Put(s, c, AdvanceTimes(v, ids(c), n)), ids)
    decreases n
  {
    if n == 0 {
      ReachesSelf(Put(s, c, v), ids);
    } else {
      Undisturbed(s, c, Advance(v, ids(c)), n - 1, ids);
      AdvanceOne(s, c, v, Put(s, c, AdvanceTimes(v, ids(c), n)), ids);
    }
  }

  lemma PutBack(s: State, c: nat)
    requires Shape(s) && c < |s.cpus|
    ensures Put(s, c, ViewOf(s, c)) == s
  {
    var cpu := s.cpus[c];
    assert cpu.frames == cpu.frames[..|cpu.frames| - 1] + [Top(cpu)];
  }

  /** acquire on a free lock: the spin loop ends at once, and the caller is on record. */
  lemma AcquireFree(s: State, c: nat, ids: nat -> nat)
    requires Shape(s) && c < |s.cpus| && Top(s.cpus[c]).pc == Outside && s.locked == 0
    ensures Reaches(s, Put(s, c, View(1, ids(c), Frame(Critical, false), false)), ids)
  {
    var v := ViewOf(s, c);
    Undisturbed(s, c, v, 6, ids);
    PutBack(s, c);
    assert AdvanceTimes(v, ids(c), 6) == View(1, ids(c), Frame(Critical, false), false);
  }

  /** release up to the point where the lock is free but the record is not yet cleared. */
  lemma ReleaseStored(s: State, c: nat, ids: nat -> nat)
    requires Shape(s) && c < |s.cpus| && Top(s.cpus[c]).pc == Critical && s.locked != 0
    ensures Reaches(s, Put(s, c, View(0, s.owner, Frame(RelClearCpu, s.owner == ids(c)), false)), ids)
  {
    var v := ViewOf(s, c);
    Undisturbed(s, c, v, 5, ids);
    PutBack(s, c);
    assert AdvanceTimes(v, ids(c), 5) == View(0, s.owner, Frame(RelClearCpu, s.owner == ids(c)), false);
  }

  /** release on a lock that is taken: holding() answers whether the caller is on record; the lock is free afterwards,
      nobody is on record, and interrupts are on. */
  lemma ReleaseDone(s: State, c: nat, ids: nat -> nat)
    requires Shape(s) && c < |s.cpus| && Top(s.cpus[c]).pc == Critical && s.locked != 0
    ensures Reaches(s, Put(s, c, View(0, 0, Frame(Outside, s.owner == ids(c)), true)), ids)
  {
    var v := View(0, s.owner, Frame(RelClearCpu, s.owner == ids(c)), false);
    var v' := View(0, 0, Frame(Outside, s.owner == ids(c)), true);
    ReleaseStored(s, c, ids);
    Undisturbed(s, c, v, 2, ids);
    assert AdvanceTimes(v, ids(c), 2) == v';
    ReachesOn(s, Put(s, c, v), Put(s, c, v'), ids);
  }

  /** A release without a lock to release only gets the answer false from holding(). */
  lemma ReleaseUnheld(s: State, c: nat, ids: nat -> nat)
    requires Shape(s) && c < |s.cpus| && Top(s.cpus[c]).pc == Critical && s.locked == 0
    ensures Reaches(s, Put(s, c, View(0, 0, Frame(Outside, false), true)), ids)
  {
    var v := ViewOf(s, c);
    Undisturbed(s, c, v, 6, ids);
    PutBack(s, c);
    assert AdvanceTimes(v, ids(c), 6) == View(0, 0, Frame(Outside, false), true);
  }

  /** acquire on a lock that is taken: holding() answers whether the caller is on record, and then the caller spins with
      interrupts off, for as many steps as the lock stays taken. */
  lemma AcquireHeld(s: State, c: nat, ids: nat -> nat, n: nat)
    requires Shape(s) && c < |s.cpus| && Top(s.cpus[c]).pc == Outside && s.locked == 1
    ensures Reaches(s, Put(s, c, View(1, s.owner, Frame(AcqXchg, s.owner == ids(c)), false)), ids)
    ensures var spin := View(1, s.owner, Frame(AcqXchg, s.owner == ids(c)), false);
      AdvanceTimes(spin, ids(c), n) == spin
  {
    var v := ViewOf(s, c);
    Undisturbed(s, c, v, 5, ids);
    PutBack(s, c);
    var spin := View(1, s.owner, Frame(AcqXchg, s.owner == ids(c)), false);
    assert AdvanceTimes(v, ids(c), 5) == spin;
    Spins(spin, ids(c), n);
  }

  lemma {:induction false} Spins(v: View, id: nat, n: nat)
    requires v.frame.pc == AcqXchg && v.locked == 1
    ensures AdvanceTimes(v, id, n) == v
    decreases n
  {
    if n > 0 { Spins(v, id, n - 1); }
  }

  /** A CPU that takes a free lock and gives it back leaves no trace, but that its interrupts are on. */
  lemma LockAndUnlock(s: State, c: nat, ids: nat -> nat)
    requires Shape(s) && c < |s.cpus| && Top(s.cpus[c]).pc == Outside && s.locked == 0
    ensures Reaches(s, Put(s, c, View(0, 0, Frame(Outside, true), true)), ids)
  {
    var v1, v2 := View(1, ids(c), Frame(Critical, false), false), View(0, 0, Frame(Outside, true), true);
    AcquireFree(s, c, ids);
    PutView(s, c, v1);
    var s1 := Put(s, c, v1);
    ReleaseDone(s1, c, ids);
    assert Put(s1, c, v2) == Put(s, c, v2);
    ReachesOn(s, s1, Put(s, c, v2), ids);
  }

  /** A timer interrupt turns interrupts off, and returning from it restores the CPU. */
  lemma InterruptReturn(s: State, c: nat, id: nat)
    requires Enabled(s, c, Interrupt)
    ensures var t := Next(s, c, Interrupt, id);
      !t.cpus[c].interrupts && Enabled(t, c, Return) && Next(t, c, Return, id) == s
  {
    var t := Next(s, c, Interrupt, id);
    assert t.cpus[c].frames[..|t.cpus[c].frames| - 1] == s.cpus[c].frames;
    assert Next(t, c, Return, id).cpus[c] == s.cpus[c];
    assert Next(t, c, Return, id).cpus == s.cpus;
  }

  lemma PutView(s: State, c: nat, v: View)
    requires Shape(s) && c < |s.cpus|
    ensures var t := Put(s, c, v);
      && Shape(t) && |t.cpus| == |s.cpus| && t.locked == v.locked && t.owner == v.owner
      && ViewOf(t, c) == v && forall d :: 0 <= d < |s.cpus| && d != c ==> t.cpus[d] == s.cpus[d]
  {
  }

  /** c takes and releases the lock, but for the clearing of `cpu`, and d takes it. */
  lemma HandOver(s: State, c: nat, d: nat, ids: nat -> nat) returns (t: State)
    requires Shape(s) && c < |s.cpus| && d < |s.cpus| && c != d && s.locked == 0
    requires Top(s.cpus[c]).pc == Outside && Top(s.cpus[d]).pc == Outside
    ensures Reaches(s, t, ids) && Shape(t) && |t.cpus| == |s.cpus|
    ensures Top(t.cpus[c]).pc == RelClearCpu && Top(t.cpus[d]).pc == Critical && t.owner == ids(d)
  {
    var v1 := View(1, ids(c), Frame(Critical, false), false);
    AcquireFree(s, c, ids);
    PutView(s, c, v1);
    var s1 := Put(s, c, v1);
    var v2 := View(0, s1.owner, Frame(RelClearCpu, s1.owner == ids(c)), false);
    ReleaseStored(s1, c, ids);
    PutView(s1, c, v2);
    var s2 := Put(s1, c, v2);
    var v3 := View(1, ids(d), Frame(Critical, false), false);
    AcquireFree(s2, d, ids);
    PutView(s2, d, v3);
    t := Put(s2, d, v3);
    ReachesOn(s, s1, s2, ids);
    ReachesOn(s, s2, t, ids);
  }

  /** The late clear: whenever the lock is free and two CPUs are outside its code, the first can release the lock, the
      second take it and store its id, and only then the first clear `cpu`. The second CPU's test in release would now
      fail, although it owns the lock. */
  lemma LateClear(s: State, c: nat, d: nat, ids: nat -> nat) returns (t: State)
    requires Shape(s) && c < |s.cpus| && d < |s.cpus| && c != d && s.locked == 0 && ids(d) != 0
    requires Top(s.cpus[c]).pc == Outside && Top(s.cpus[d]).pc == Outside
    ensures Reaches(s, t, ids) && Shape(t) && Recorded(t, d) && t.owner != ids(d)
  {
    var u := HandOver(s, c, d, ids);
    var v := Advance(ViewOf(u, c), ids(c));
    t := Put(u, c, v);
    PutView(u, c, v);
    ReachesSelf(t, ids);
    AdvanceOne(u, c, ViewOf(u, c), t, ids);
    PutBack(u, c);
    ReachesOn(s, u, t, ids);
  }

  // ----- When the record can always be trusted -----

  /** With one CPU, or for the CPU with APIC id 0, no step spoils the record or makes an owner without it. */
  lemma StepTrusted(s: State, e: Event, ids: nat -> nat, d: nat)
    requires Inv(s) && Enabled(s, e.cpu, e.action) && (ids(d) == 0 || |s.cpus| == 1)
    requires Recorded(s, d) ==> RecordSafe(s, d, ids)
    ensures var s' := Step(s, e, ids);
      Inv(s') && |s'.cpus| == |s.cpus| && (Recorded(s', d) ==> RecordSafe(s', d, ids))
  {
    var s' := Step(s, e, ids);
    NextInv(s, e.cpu, e.action, ids(e.cpu));
    NextCpuOk(s, e.cpu, e.action, ids(e.cpu));
    if Recorded(s, d) {
      StepRecord(s, e, ids, d);
    } else if Recorded(s', d) {
      NextHolders(s, e.cpu, e.action, ids(e.cpu));
      assert CpuOk(s.cpus[e.cpu]);
      assert e.cpu == d && Top(s.cpus[d]).pc == AcqSetCpu && s'.owner == ids(d);
    }
  }

  lemma {:induction false} RunTrusted(s: State, run: seq<Event>, ids: nat -> nat, d: nat)
    requires Inv(s) && IsRun(s, run, ids) && (ids(d) == 0 || |s.cpus| == 1)
    requires Recorded(s, d) ==> RecordSafe(s, d, ids)
    ensures var t := Final(s, run, ids); Inv(t) && (Recorded(t, d) ==> t.owner == ids(d))
    decreases |run|
  {
    if run != [] {
      StepTrusted(s, run[0], ids, d);
      RunTrusted(Step(s, run[0], ids), run[1..], ids, d);
    }
  }

  /** If the run ends with d owning the lock and past the store of its id, then that id is on record. */
  ghost predicate OnRecord(interrupts: seq<bool>, run: seq<Event>, ids: nat -> nat, d: nat) {
    IsRun(Init(interrupts), run, ids) ==>
      var t := Final(Init(interrupts), run, ids);
      Shape(t) && (Recorded(t, d) ==> t.owner == ids(d))
  }

  /** The owner's test in release succeeds in every run from a freshly initialised lock exactly on the machine's only
      CPU and on the CPU with APIC id 0. */
  lemma RecordTrusted(interrupts: seq<bool>, ids: nat -> nat, d: nat)
    requires d < |interrupts|
    ensures ids(d) == 0 || |interrupts| == 1 <==> forall run :: OnRecord(interrupts, run, ids, d)
  {
    var s := Init(interrupts);
    InitInv(interrupts);
    if ids(d) == 0 || |interrupts| == 1 {
      forall run ensures OnRecord(interrupts, run, ids, d) {
        if IsRun(s, run, ids) { RunTrusted(s, run, ids, d); }
      }
    } else {
      var t := LateClear(s, if d == 0 then 1 else 0, d, ids);
      var run :| IsRun(s, run, ids) && Final(s, run, ids) == t;
      assert !OnRecord(interrupts, run, ids, d);
    }
  }
}
