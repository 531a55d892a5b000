/**
  What every step of the engine keeps about locks and condition variables: the lock table is
  exactly the set of guards alive, and nobody sleeps while what it waits for is available.
 */
module EngineLocks {
  import opened Basics
  import opened Paths
  import opened FileTree
  import opened Commands
  import opened DiskModel
  import opened Locks
  import opened Engine

  /** The applier's program counter fits its command. */
  ghost predicate Shape(s: State)
  {
    && s.applied <= |s.log| && |s.statuses| == s.applied
    && (!s.pc.Fetching? ==> s.applied < |s.log| && ShapeBusy(s))
  }

  ghost predicate ShapeBusy(s: State)
    requires s.applied < |s.log|
  {
    var plan := LockPlan(Current(s));
    match s.pc
    case Fetching => true
    case Taking(held, _) => held < |plan|
    case Calling => true
    case Writing(inode, written) => inode < |s.disk.data| && written <= |Current(s).contents|
    case Releasing(held, _) => held <= |plan|
  }

  /** The table holds the guards alive, no more and no fewer. */
  ghost predicate LocksExact(s: State)
  {
    Represents(s.table, ReadGuards(s.readers), multiset(WriteGuards(s)))
  }

  /** A thread asleep on the lock table waits for a lock that it could not get now. */
  ghost predicate NoLostWakeup(s: State)
  {
    && (forall i :: 0 <= i < |s.readers| ==> ReaderSleepsRightly(s, s.readers[i]))
    && (Busy(s) && s.pc.Taking? && s.pc.wake.Asleep? && s.pc.held < |LockPlan(Current(s))| ==>
          !CanWrite(s.table, LockPlan(Current(s))[s.pc.held]))
  }

  ghost predicate ReaderSleepsRightly(s: State, r: Reader)
  {
    r.pc.Locking? && r.pc.wake.Asleep? ==> !CanRead(s.table, r.path)
  }

  /** A thread asleep on a closure waits for one that has not run; its outcome, once there, is the
      status of its own log entry or a failure reported by Raft. */
  ghost predicate WaitersRight(s: State)
  {
    forall w :: 0 <= w < |s.waiters| ==> WaiterRight(s, s.waiters[w])
  }

  ghost predicate WaiterRight(s: State, wt: Waiter)
  {
    && wt.entry < |s.log|
    && (wt.pc == Waiting(Asleep) ==> wt.outcome.None?)
    && (wt.pc.Resumed? ==> wt.outcome.Some?)
    && (wt.outcome.Some? ==>
          wt.outcome == Some(Failed(IoError)) || (wt.entry < |s.statuses| && wt.outcome.value == s.statuses[wt.entry]))
  }

  ghost predicate Sound(s: State)
  {
    Shape(s) && LocksExact(s) && NoLostWakeup(s) && WaitersRight(s)
  }

  /* ---------- Read guards under updates ---------- */

  /** Replacing one reader exchanges its guard, path by path. */
  lemma {:induction false} GuardCountUpdated(rs: seq<Reader>, i: nat, r: Reader, p: string)
    requires i < |rs|
    ensures ReadGuards(rs[i := r])[p] + GuardOf(rs[i])[p] == ReadGuards(rs)[p] + GuardOf(r)[p]
    ensures GuardOf(rs[i])[p] <= ReadGuards(rs)[p]
  {
    var n := |rs| - 1;
    LastGuardCounts(rs, p);
    LastGuardCounts(rs[i := r], p);
    if i == n {
      assert rs[i := r][..n] == rs[..n];
    } else {
      assert rs[i := r][..n] == rs[..n][i := r];
      GuardCountUpdated(rs[..n], i, r, p);
    }
  }

  lemma LastGuardCounts(rs: seq<Reader>, p: string)
    requires rs != []
    ensures ReadGuards(rs)[p] == ReadGuards(rs[..|rs| - 1])[p] + GuardOf(rs[|rs| - 1])[p]
  {
  }

  lemma GuardsUpdated(rs: seq<Reader>, i: nat, r: Reader)
    requires i < |rs|
    ensures ReadGuards(rs[i := r]) == ReadGuards(rs) - GuardOf(rs[i]) + GuardOf(r)
    ensures GuardOf(rs[i]) <= ReadGuards(rs)
  {
    forall p ensures ReadGuards(rs[i := r])[p] == (ReadGuards(rs) - GuardOf(rs[i]) + GuardOf(r))[p]
      ensures GuardOf(rs[i])[p] <= ReadGuards(rs)[p]
    {
      GuardCountUpdated(rs, i, r, p);
    }
  }

  lemma {:induction false} GuardsRoused(rs: seq<Reader>)
    ensures ReadGuards(RousedReaders(rs)) == ReadGuards(rs)
  {
    if rs != [] {
      assert RousedReaders(rs)[..|rs| - 1] == RousedReaders(rs[..|rs| - 1]);
      GuardsRoused(rs[..|rs| - 1]);
    }
  }

  lemma {:induction false} GuardHasHolder(rs: seq<Reader>, p: string) returns (i: nat)
    requires p in ReadGuards(rs)
    ensures i < |rs| && HoldsGuard(rs[i]) && rs[i].path == p
  {
    if p in GuardOf(rs[|rs| - 1]) {
      i := |rs| - 1;
    } else {
      i := GuardHasHolder(rs[..|rs| - 1], p);
    }
  }

  lemma {:induction false} NoGuardsAtStart(rs: seq<Reader>)
    requires forall i :: 0 <= i < |rs| ==> rs[i].pc.NotCalled?
    ensures ReadGuards(rs) == multiset{}
  {
    if rs != [] {
      NoGuardsAtStart(rs[..|rs| - 1]);
    }
  }

  /* ---------- Reader steps ---------- */

  lemma InitialIsSound(s: State)
    requires Initial(s)
    ensures Sound(s)
  {
    NoGuardsAtStart(s.readers);
    forall p ensures RepresentsAt(s.table, ReadGuards(s.readers), multiset(WriteGuards(s)), p) {
    }
  }

  lemma WaitersUnmoved(s: State, s': State)
    requires WaitersRight(s)
    requires s'.waiters == s.waiters && s'.log == s.log && s.statuses <= s'.statuses
    ensures WaitersRight(s')
  {
    forall w | 0 <= w < |s'.waiters| ensures WaiterRight(s', s'.waiters[w]) {
      assert WaiterRight(s, s.waiters[w]);
    }
  }

  /** A reader changes its program counter without touching its guard. */
  lemma ReaderMoves(s: State, i: nat, pc: ReaderPc)
    requires Sound(s) && i < |s.readers|
    requires HoldsGuard(s.readers[i]) <==> HoldsGuard(s.readers[i].(pc := pc))
    requires pc.Locking? && pc.wake.Asleep? ==> !CanRead(s.table, s.readers[i].path)
    ensures Sound(SetReader(s, i, pc))
  {
    var s' := SetReader(s, i, pc);
    GuardsUpdated(s.readers, i, s.readers[i].(pc := pc));
    assert ReadGuards(s'.readers) == ReadGuards(s.readers);
    assert WriteGuards(s') == WriteGuards(s);
    forall j | 0 <= j < |s'.readers| ensures ReaderSleepsRightly(s', s'.readers[j]) {
      assert j != i ==> ReaderSleepsRightly(s, s.readers[j]);
    }
    WaitersUnmoved(s, s');
  }

  lemma ReaderLocks(s: State, i: nat)
    requires Sound(s) && Enabled(s, TryRead(i))
    ensures Sound(DoTryRead(s, i))
  {
    var r := s.readers[i];
    if CanRead(s.table, r.path) {
      var s' := DoTryRead(s, i);
      ReaderGranted(s, i, s');
      TakingKeepsSleepers(s, s', i, r.path);
    } else {
      ReaderMoves(s, i, r.pc.(wake := Asleep));
    }
  }

  lemma ReaderGranted(s: State, i: nat, s': State)
    requires Sound(s) && Enabled(s, TryRead(i)) && CanRead(s.table, s.readers[i].path)
    requires s' == DoTryRead(s, i)
    ensures Shape(s') && LocksExact(s')
  {
    ReaderAcquired(s, i, s'.readers[i]);
    assert WriteGuards(s') == WriteGuards(s);
  }

  lemma ReaderAcquired(s: State, i: nat, r': Reader)
    requires LocksExact(s) && i < |s.readers| && !HoldsGuard(s.readers[i]) && HoldsGuard(r')
    requires r'.path == s.readers[i].path && CanRead(s.table, r'.path)
    ensures Represents(LockRead(s.table, r'.path), ReadGuards(s.readers[i := r']), multiset(WriteGuards(s)))
  {
    GuardsUpdated(s.readers, i, r');
    assert ReadGuards(s.readers[i := r']) == ReadGuards(s.readers) + multiset{r'.path};
    ReadLocked(s.table, ReadGuards(s.readers), multiset(WriteGuards(s)), r'.path);
  }

  /** Granting a read lock leaves every sleeper rightly asleep. */
  lemma TakingKeepsSleepers(s: State, s': State, i: nat, p: string)
    requires Sound(s) && i < |s.readers| && CanRead(s.table, p)
    requires s' == s.(table := LockRead(s.table, p), readers := s'.readers)
    requires |s'.readers| == |s.readers| && s'.readers[i].pc.Opening?
    requires forall j :: 0 <= j < |s.readers| && j != i ==> s'.readers[j] == s.readers[j]
    ensures NoLostWakeup(s') && WaitersRight(s')
  {
    forall j | 0 <= j < |s'.readers| ensures ReaderSleepsRightly(s', s'.readers[j]) {
      if j != i {
        assert ReaderSleepsRightly(s, s.readers[j]);
        LockingOnlyRefuses(s.table, p, s.readers[j].path);
      }
    }
    if Busy(s) && s.pc.Taking? && s.pc.held < |LockPlan(Current(s))| {
      var q := LockPlan(Current(s))[s.pc.held];
      assert RepresentsAt(s.table, ReadGuards(s.readers), multiset(WriteGuards(s)), q);
      LockingOnlyRefuses(s.table, p, q);
    }
    WaitersUnmoved(s, s');
  }

  /** After `notify_all` nobody is asleep on the lock table. */
  lemma NotifiedNobodySleeps(s: State)
    requires Shape(s) && LocksExact(s) && WaitersRight(s)
    ensures Sound(NotifyAll(s))
  {
    var s' := NotifyAll(s);
    GuardsRoused(s.readers);
    NotifyKeepsShape(s);
    WaitersUnmoved(s, s');
    NotifiedAreAwake(s);
  }

  lemma NotifiedAreAwake(s: State)
    ensures NoLostWakeup(NotifyAll(s))
  {
    var s' := NotifyAll(s);
    forall j | 0 <= j < |s'.readers| ensures ReaderSleepsRightly(s', s'.readers[j]) {
      assert s'.readers[j] == RousedReader(s.readers[j]);
    }
  }

  lemma NotifyKeepsShape(s: State)
    requires Shape(s)
    ensures Shape(NotifyAll(s)) && WriteGuards(NotifyAll(s)) == WriteGuards(s)
  {
    match s.pc
    case Taking(_, _) =>
    case _ => assert NotifyAll(s).pc == s.pc;
  }

  /** The state in which a reader has dropped its lock and not yet notified. */
  function ReadDropped(s: State, i: nat): State
    requires Enabled(s, DropRead(i))
  {
    var r := s.readers[i];
    SetReader(s.(table := UnlockRead(s.table, r.path)), i,
              Returned(r.pc.since, r.pc.at, Started(s), r.pc.result))
  }

  lemma ReaderUnlocks(s: State, i: nat)
    requires Sound(s) && Enabled(s, DropRead(i))
    ensures s.readers[i].path in s.table
    ensures Sound(DoDropRead(s, i))
  {
    var r, m := s.readers[i], ReadDropped(s, i);
    assert WriteGuards(m) == WriteGuards(s);
    ReaderReleased(s, i, m.readers[i]);
    WaitersUnmoved(s, m);
    NotifiedNobodySleeps(m);
  }

  lemma ReaderReleased(s: State, i: nat, r': Reader)
    requires LocksExact(s) && i < |s.readers| && HoldsGuard(s.readers[i]) && !HoldsGuard(r')
    ensures s.readers[i].path in s.table
    ensures Represents(UnlockRead(s.table, s.readers[i].path), ReadGuards(s.readers[i := r']), multiset(WriteGuards(s)))
  {
    var p := s.readers[i].path;
    GuardsUpdated(s.readers, i, r');
    assert GuardOf(s.readers[i]) == multiset{p} && GuardOf(r') == multiset{};
    assert p in ReadGuards(s.readers);
    assert ReadGuards(s.readers[i := r']) == ReadGuards(s.readers) - multiset{p};
    ReadUnlocked(s.table, ReadGuards(s.readers), multiset(WriteGuards(s)), p);
  }

  /* ---------- Applier steps ---------- */

  /** The applier changes its program counter and the disk without touching its guards. */
  lemma ApplierMoves(s: State, s': State)
    requires Sound(s) && Shape(s')
    requires s' == s.(pc := s'.pc, disk := s'.disk)
    requires WriteGuards(s') == WriteGuards(s)
    requires Busy(s') && s'.pc.Taking? && s'.pc.wake.Asleep? && s'.pc.held < |LockPlan(Current(s'))| ==>
               !CanWrite(s.table, LockPlan(Current(s'))[s'.pc.held])
    ensures Sound(s')
  {
    forall j | 0 <= j < |s'.readers| ensures ReaderSleepsRightly(s', s'.readers[j]) {
      assert ReaderSleepsRightly(s, s.readers[j]);
    }
    WaitersUnmoved(s, s');
  }

  lemma ApplierLocks(s: State)
    requires Sound(s) && Enabled(s, TryWrite)
    ensures Sound(DoTryWrite(s))
  {
    var plan, held := LockPlan(Current(s)), s.pc.held;
    var s' := DoTryWrite(s);
    if CanWrite(s.table, plan[held]) {
      WriteLocked(s.table, ReadGuards(s.readers), multiset(WriteGuards(s)), plan[held]);
      assert plan[..held + 1] == plan[..held] + [plan[held]];
      assert plan[..|plan|] == plan;
      assert WriteGuards(s') == WriteGuards(s) + [plan[held]];
      forall j | 0 <= j < |s'.readers| ensures ReaderSleepsRightly(s', s'.readers[j]) {
        assert ReaderSleepsRightly(s, s.readers[j]);
        LockingOnlyRefuses(s.table, plan[held], s.readers[j].path);
      }
      WaitersUnmoved(s, s');
    } else {
      ApplierMoves(s, s');
    }
  }

  /** The state in which the applier has dropped its last guard and not yet notified. */
  function WriteDropped(s: State): State
    requires Enabled(s, DropWrite)
  {
    var held := s.pc.held - 1;
    s.(table := UnlockWrite(s.table, LockPlan(Current(s))[held]), pc := s.pc.(held := held))
  }

  lemma ApplierUnlocks(s: State)
    requires Sound(s) && Enabled(s, DropWrite)
    ensures LockPlan(Current(s))[s.pc.held - 1] in s.table
    ensures Sound(DoDropWrite(s))
  {
    var m := WriteDropped(s);
    WriteReleased(s, m);
    WaitersUnmoved(s, m);
    NotifiedNobodySleeps(m);
  }

  lemma WriteReleased(s: State, m: State)
    requires Shape(s) && LocksExact(s) && Enabled(s, DropWrite) && m == WriteDropped(s)
    ensures LockPlan(Current(s))[s.pc.held - 1] in s.table
    ensures LocksExact(m)
  {
    var plan, held := LockPlan(Current(s)), s.pc.held - 1;
    ReleasingGuards(s);
    ReleasingGuards(m);
    LastGuardDropped(s.table, ReadGuards(s.readers), plan, held);
  }

  lemma ReleasingGuards(s: State)
    requires Busy(s) && s.pc.Releasing? && s.pc.held <= |LockPlan(Current(s))|
    ensures WriteGuards(s) == LockPlan(Current(s))[..s.pc.held]
  {
  }

  lemma LastGuardDropped(t: Table, rs: multiset<string>, plan: seq<string>, held: nat)
    requires held < |plan| && Represents(t, rs, multiset(plan[..held + 1]))
    ensures plan[held] in t
    ensures Represents(UnlockWrite(t, plan[held]), rs, multiset(plan[..held]))
  {
    var p := plan[held];
    assert plan[..held + 1] == plan[..held] + [p];
    WriteUnlocked(t, rs, multiset(plan[..held + 1]), p);
    assert multiset(plan[..held]) == multiset(plan[..held + 1]) - multiset{p};
  }

  lemma ApplierCompletes(s: State)
    requires Sound(s) && Enabled(s, Complete)
    ensures Sound(DoComplete(s))
  {
    var s' := DoComplete(s);
    assert WriteGuards(s) == [] == WriteGuards(s');
    forall j | 0 <= j < |s'.readers| ensures ReaderSleepsRightly(s', s'.readers[j]) {
      assert ReaderSleepsRightly(s, s.readers[j]);
    }
    WaitersUnmoved(s, s');
  }

  lemma ApplierFetches(s: State)
    requires Sound(s) && Enabled(s, Fetch)
    ensures Sound(DoFetch(s))
  {
    var s' := DoFetch(s);
    assert LockPlan(Current(s))[..0] == [];
    assert WriteGuards(s) == [] == WriteGuards(s');
    ApplierMoves(s, s');
  }

  lemma ApplierIssues(s: State)
    requires Sound(s) && Enabled(s, Issue)
    requires ValidDisk(s.disk)
    ensures Sound(DoIssue(s))
  {
    IssueKeepsShape(s);
    ApplierMoves(s, DoIssue(s));
  }

  lemma IssueKeepsShape(s: State)
    requires Shape(s) && Enabled(s, Issue) && ValidDisk(s.disk)
    ensures Shape(DoIssue(s)) && !DoIssue(s).pc.Taking?
    ensures WriteGuards(DoIssue(s)) == WriteGuards(s)
  {
    var c := Current(s);
    assert LockPlan(c)[..|LockPlan(c)|] == LockPlan(c);
    InodeInRange(s.disk, c);
  }

  lemma InodeInRange(d: Disk, c: Command)
    requires ValidDisk(d)
    ensures var d', p := DiskCall(d, c), TargetOf(c.path).path;
            IsFile(d'.tree, p) ==> d'.tree[p].f < |d'.data|
  {
    ViewDiskCall(d, c);
  }

  lemma ApplierWrites(s: State, a: Action)
    requires Sound(s) && Enabled(s, a) && (a.WriteSome? || a.FinishWrite?)
    ensures Sound(Do(s, a))
  {
    var plan := LockPlan(Current(s));
    assert plan[..|plan|] == plan;
    ApplierMoves(s, Do(s, a));
  }

  /* ---------- Closures ---------- */

  lemma WaiterMoves(s: State, w: nat, wt: Waiter)
    requires Sound(s) && w < |s.waiters| && WaiterRight(s, wt)
    ensures Sound(SetWaiter(s, w, wt))
  {
    var s' := SetWaiter(s, w, wt);
    assert WriteGuards(s') == WriteGuards(s);
    forall j | 0 <= j < |s'.readers| ensures ReaderSleepsRightly(s', s'.readers[j]) {
      assert ReaderSleepsRightly(s, s.readers[j]);
    }
    forall v | 0 <= v < |s'.waiters| ensures WaiterRight(s', s'.waiters[v]) {
      assert v != w ==> WaiterRight(s, s.waiters[v]);
    }
  }

  /* ---------- Every step, every run ---------- */

  /** Only taking and dropping the lock changes who holds a guard. */
  lemma GuardKept(s: State, a: Action)
    requires Enabled(s, a) && ReaderStep(a) && !a.TryRead?
    ensures var r, r' := s.readers[a.i], Do(s, a).readers[a.i];
            && (HoldsGuard(r) <==> HoldsGuard(r'))
            && !(r'.pc.Locking? && r'.pc.wake.Asleep?)
  {
    if a.OpenRead? {
      OpenKeepsGuard(s, a.i);
    } else if a.StatRead? {
      StatKeepsGuard(s, a.i);
    }
  }

  lemma OpenKeepsGuard(s: State, i: nat)
    requires Enabled(s, OpenRead(i))
    ensures |DoOpenRead(s, i).readers| == |s.readers|
    ensures HoldsGuard(s.readers[i]) && HoldsGuard(DoOpenRead(s, i).readers[i])
  {
  }

  lemma StatKeepsGuard(s: State, i: nat)
    requires Enabled(s, StatRead(i))
    ensures |DoStatRead(s, i).readers| == |s.readers|
    ensures HoldsGuard(s.readers[i]) && HoldsGuard(DoStatRead(s, i).readers[i])
  {
  }

  lemma ReaderStepIsSound(s: State, a: Action)
    requires Sound(s) && Enabled(s, a) && ReaderStep(a) && !a.TryRead?
    ensures Sound(Do(s, a))
  {
    ReaderStepShape(s, a);
    GuardKept(s, a);
    ReaderMoves(s, a.i, Do(s, a).readers[a.i].pc);
  }

  lemma WaiterStepIsSound(s: State, a: Action)
    requires Sound(s) && Enabled(s, a)
    requires WaiterStep(a)
    ensures Sound(Do(s, a))
  {
    assert WaiterRight(s, s.waiters[a.w]);
    WaiterStepShape(s, a);
    WaiterMoves(s, a.w, Do(s, a).waiters[a.w]);
  }

  lemma ApplierStepIsSound(s: State, a: Action)
    requires Sound(s) && Enabled(s, a) && ValidDisk(s.disk)
    requires !ReaderStep(a) && !WaiterStep(a) && !a.DropRead?
    ensures Sound(Do(s, a))
  {
    match a
    case Fetch => ApplierFetches(s);
    case TryWrite => ApplierLocks(s);
    case Issue => ApplierIssues(s);
    case WriteSome(_) => ApplierWrites(s, a);
    case FinishWrite => ApplierWrites(s, a);
    case DropWrite => ApplierUnlocks(s);
    case Complete => ApplierCompletes(s);
    case WakeApplier => ApplierMoves(s, Do(s, a));
    case Interrupt =>
  }

  /** Every step keeps the lock table exact and loses no wake-up. */
  lemma StepIsSound(s: State, a: Action)
    requires Sound(s) && Enabled(s, a) && ValidDisk(s.disk)
    ensures Sound(Do(s, a))
  {
    if a.TryRead? {
      ReaderLocks(s, a.i);
    } else if a.DropRead? {
      ReaderUnlocks(s, a.i);
    } else if ReaderStep(a) {
      ReaderStepIsSound(s, a);
    } else if WaiterStep(a) {
      WaiterStepIsSound(s, a);
    } else {
      ApplierStepIsSound(s, a);
    }
  }
}
