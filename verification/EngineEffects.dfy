/**
  What every step of the engine keeps about the disk: seen from outside it is the tree after a
  whole number of commands, except for the one file that a write in progress has reached.
 */
module EngineEffects {
  import opened Basics
  import opened Paths
  import opened FileTree
  import opened Commands
  import opened DiskModel
  import opened Locks
  import opened Engine
  import opened EngineLocks

  /** The tree after the first `k` commands of the log. */
  function TreeAt(s: State, k: nat): Tree<Bytes>
  {
    Run(s.origin, if k <= |s.log| then s.log[..k] else s.log)
  }

  function Goal(s: State): Outcome
    requires s.applied < |s.log|
  {
    Exec(TreeAt(s, s.applied), Current(s))
  }

  ghost predicate EffectsRight(s: State)
  {
    && Shape(s)
    && ValidDisk(s.disk)
    && s.statuses == Statuses(s.origin, s.log[..s.applied])
    && match s.pc
       case Writing(inode, written) => WriteOnTrack(s, inode, written)
       case Releasing(_, status) => View(s.disk) == Goal(s).tree && status == Goal(s).status
       case _ => View(s.disk) == TreeAt(s, s.applied)
  }

  /** Writing the rest of the buffer completes the command. */
  ghost predicate WriteOnTrack(s: State, inode: Inode, written: nat)
    requires s.applied < |s.log| && inode < |s.disk.data| && written <= |Current(s).contents|
  {
    var c := Current(s);
    && Accepts(c) && Writes(c.kind) && Goal(s).status == Fine
    && OnTrack(s.disk, TargetOf(c.path).path, c.kind.AppendFile?, c.contents, Goal(s).tree, inode, written)
  }

  /** Writing the rest of `contents` to the file at `p` gives the tree `goal`. */
  ghost predicate OnTrack(d: Disk, p: Path, append: bool, contents: Bytes, goal: Tree<Bytes>,
                          inode: Inode, written: nat)
    requires inode < |d.data| && written <= |contents|
  {
    && IsFile(d.tree, p) && d.tree[p].f == inode
    && View(d)[p := File(d.data[inode] + contents[written..])] == goal
    && (!append ==> |d.data[inode]| == written)
  }

  lemma InitialEffects(s: State)
    requires Initial(s) && ValidDisk(s.disk)
    ensures EffectsRight(s)
  {
    assert s.log[..0] == [];
  }

  /** Steps that leave the disk and the applier's phase alone. */
  lemma SamePhase(s: State, s': State)
    requires EffectsRight(s)
    requires s'.origin == s.origin && s'.log == s.log && s'.disk == s.disk
    requires s'.applied == s.applied && s'.statuses == s.statuses && Shape(s')
    requires s'.pc == s.pc || (!s.pc.Writing? && !s.pc.Releasing? && !s'.pc.Writing? && !s'.pc.Releasing?)
          || (s.pc.Releasing? && s'.pc.Releasing? && s.pc.status == s'.pc.status)
    ensures EffectsRight(s')
  {
  }

  lemma IssueEffects(s: State)
    requires EffectsRight(s) && Enabled(s, Issue) && Shape(DoIssue(s))
    ensures EffectsRight(DoIssue(s))
  {
    var c, s' := Current(s), DoIssue(s);
    if Accepts(c) {
      ViewDiskCall(s.disk, c);
      if Writes(c.kind) && DiskErr(s.disk, c).None? {
        OpenedForWriting(s.disk, c);
        assert c.contents[0..] == c.contents;
      }
    }
  }

  lemma WriteEffects(s: State, n: nat)
    requires EffectsRight(s) && Enabled(s, WriteSome(n)) && Shape(DoWriteSome(s, n))
    ensures EffectsRight(DoWriteSome(s, n))
  {
    WriteShape(s, n, DoWriteSome(s, n));
    ChunkLands(s, n, DoWriteSome(s, n));
  }

  lemma WriteShape(s: State, n: nat, s': State)
    requires Enabled(s, WriteSome(n)) && ValidDisk(s.disk) && s' == DoWriteSome(s, n)
    ensures s' == s.(disk := s'.disk, pc := Writing(s.pc.inode, s.pc.written + n))
    ensures Advances(s.disk, s'.disk, Current(s).kind.AppendFile?, Current(s).contents, s.pc.inode, s.pc.written, n)
  {
    var c, i, k := Current(s), s.pc.inode, s.pc.written;
    PieceAdvances(s.disk, s'.disk, c.kind.AppendFile?, c.contents, i, k, n);
  }

  /** Wherever the write is heading, `n` more bytes are on the disk. */
  ghost predicate Advances(d: Disk, d': Disk, append: bool, contents: Bytes, i: Inode, k: nat, n: nat)
    requires i < |d.data| && k + n <= |contents|
  {
    forall p, goal :: OnTrack(d, p, append, contents, goal, i, k) ==>
      ValidDisk(d') && i < |d'.data| && OnTrack(d', p, append, contents, goal, i, k + n)
  }

  lemma PieceAdvances(d: Disk, d': Disk, append: bool, contents: Bytes, i: Inode, k: nat, n: nat)
    requires ValidDisk(d) && i < |d.data| && k + n <= |contents|
    requires d' == WriteChunk(d, i, append, k, contents[k..k + n])
    ensures Advances(d, d', append, contents, i, k, n)
  {
    forall p, goal | OnTrack(d, p, append, contents, goal, i, k)
      ensures ValidDisk(d') && i < |d'.data| && OnTrack(d', p, append, contents, goal, i, k + n)
    {
      ChunkOnTrack(d, p, append, contents, goal, i, k, n, d');
    }
  }

  /** The state after a piece was written. */
  lemma ChunkLands(s: State, n: nat, s': State)
    requires EffectsRight(s) && s.pc.Writing? && s.pc.written + n <= |Current(s).contents|
    requires s' == s.(disk := s'.disk, pc := Writing(s.pc.inode, s.pc.written + n)) && Shape(s')
    requires Advances(s.disk, s'.disk, Current(s).kind.AppendFile?, Current(s).contents, s.pc.inode, s.pc.written, n)
    ensures EffectsRight(s')
  {
    assert WriteOnTrack(s, s.pc.inode, s.pc.written);
    StillOnTrack(s, n, s');
  }

  lemma StillOnTrack(s: State, n: nat, s': State)
    requires EffectsRight(s) && s.pc.Writing? && s' == s.(disk := s'.disk, pc := Writing(s.pc.inode, s.pc.written + n))
    requires Shape(s') && ValidDisk(s'.disk)
    requires OnTrack(s'.disk, TargetOf(Current(s).path).path, Current(s).kind.AppendFile?, Current(s).contents,
                     Goal(s).tree, s.pc.inode, s.pc.written + n)
    ensures EffectsRight(s')
  {
  }

  /** Writing a piece leaves the rest to be written. */
  lemma ChunkOnTrack(d: Disk, p: Path, append: bool, contents: Bytes, goal: Tree<Bytes>,
                     i: Inode, k: nat, n: nat, d': Disk)
    requires ValidDisk(d) && i < |d.data| && k + n <= |contents| && OnTrack(d, p, append, contents, goal, i, k)
    requires d' == WriteChunk(d, i, append, k, contents[k..k + n])
    ensures ValidDisk(d') && i < |d'.data| && OnTrack(d', p, append, contents, goal, i, k + n)
  {
    ChunkWritten(d, p, append, k, contents[k..k + n]);
    RestAfterChunk(View(d), p, d.data[i], contents, k, n);
  }

  lemma RestAfterChunk(v: Tree<Bytes>, p: Path, b: Bytes, contents: Bytes, k: nat, n: nat)
    requires k + n <= |contents|
    ensures var chunk := contents[k..k + n];
            v[p := File(b + chunk)][p := File(b + chunk + contents[k + n..])] == v[p := File(b + contents[k..])]
  {
    var chunk := contents[k..k + n];
    assert contents[k..] == chunk + contents[k + n..];
    assert b + contents[k..] == b + chunk + contents[k + n..];
  }

  lemma FinishEffects(s: State)
    requires EffectsRight(s) && Enabled(s, FinishWrite) && Shape(Do(s, FinishWrite))
    ensures EffectsRight(Do(s, FinishWrite))
  {
    var c := Current(s);
    assert s.disk.data[s.pc.inode] + c.contents[s.pc.written..] == s.disk.data[s.pc.inode];
    FileAsItIs(s.disk, TargetOf(c.path).path);
  }

  lemma FileAsItIs(d: Disk, p: Path)
    requires ValidDisk(d) && IsFile(d.tree, p)
    ensures View(d)[p := File(d.data[d.tree[p].f])] == View(d)
  {
    ViewShape(d);
    assert View(d)[p] == File(d.data[d.tree[p].f]);
  }

  lemma CompleteEffects(s: State)
    requires EffectsRight(s) && Enabled(s, Complete) && Shape(DoComplete(s))
    ensures EffectsRight(DoComplete(s))
  {
    RunNext(s.origin, s.log, s.applied);
  }

  lemma StepEffects(s: State, a: Action)
    requires EffectsRight(s) && Sound(s) && Enabled(s, a)
    ensures EffectsRight(Do(s, a))
  {
    StepIsSound(s, a);
    if a.Issue? {
      IssueEffects(s);
    } else if a.WriteSome? {
      WriteEffects(s, a.n);
    } else if a.FinishWrite? {
      FinishEffects(s);
    } else if a.Complete? {
      CompleteEffects(s);
    } else {
      QuietStep(s, a);
    }
  }

  lemma QuietStep(s: State, a: Action)
    requires EffectsRight(s) && Enabled(s, a) && Shape(Do(s, a))
    requires !a.Issue? && !a.WriteSome? && !a.FinishWrite? && !a.Complete?
    ensures EffectsRight(Do(s, a))
  {
    QuietFrame(s, a);
    SamePhase(s, Do(s, a));
  }

  /** The steps that neither touch the disk nor finish or begin a command's effect. */
  lemma QuietFrame(s: State, a: Action)
    requires Enabled(s, a) && !a.Issue? && !a.WriteSome? && !a.FinishWrite? && !a.Complete?
    ensures var s' := Do(s, a);
            && s'.disk == s.disk && s'.applied == s.applied && s'.statuses == s.statuses
            && s'.origin == s.origin && s'.log == s.log
            && Started(s') == Started(s)
            && (s'.pc == s.pc || (!s.pc.Writing? && !s.pc.Releasing? && !s'.pc.Writing? && !s'.pc.Releasing?)
                || (s.pc.Releasing? && s'.pc.Releasing? && s.pc.status == s'.pc.status))
  {
    if ReaderStep(a) {
      ReaderStepShape(s, a);
    } else if WaiterStep(a) {
      WaiterStepShape(s, a);
    }
  }

  /* ---------- Every run ---------- */

  ghost predicate Good(s: State)
  {
    Sound(s) && EffectsRight(s)
  }

  /** In every reachable state the lock table is exact, no wake-up is lost, and the disk is where
      the log says. */
  lemma {:induction false} RunsAreGood(s0: State, actions: seq<Action>)
    requires Initial(s0) && ValidDisk(s0.disk)
    ensures Execute(s0, actions).Some? ==> Good(Execute(s0, actions).value)
    ensures Execute(s0, actions).Some? ==>
              Execute(s0, actions).value.origin == s0.origin && Execute(s0, actions).value.log == s0.log
  {
    if actions == [] {
      InitialIsSound(s0);
      InitialEffects(s0);
    } else {
      var before, a := actions[..|actions| - 1], actions[|actions| - 1];
      RunsAreGood(s0, before);
      if Execute(s0, actions).Some? {
        var s := Execute(s0, before).value;
        StepIsSound(s, a);
        StepEffects(s, a);
        StepFrame(s, a);
      }
    }
  }

  /** The lock table against the guards, spelled out for one path. */
  lemma LockTableRefines(s0: State, actions: seq<Action>, p: string)
    requires Initial(s0) && ValidDisk(s0.disk) && Execute(s0, actions).Some?
    ensures var s := Execute(s0, actions).value;
            var reading, writing := ReadGuards(s.readers)[p], multiset(WriteGuards(s))[p];
            && (p in s.table <==> reading + writing > 0)
            && (p in s.table ==> s.table[p].readerCount == reading && (s.table[p].writeLocked <==> writing == 1))
            && writing <= 1 && (writing == 0 || reading == 0)
            && (CanWrite(s.table, p) <==> p !in s.table)
  {
    RunsAreGood(s0, actions);
    var s := Execute(s0, actions).value;
    assert RepresentsAt(s.table, ReadGuards(s.readers), multiset(WriteGuards(s)), p);
  }

  /** Whenever a guard is dropped its table entry exists: neither "non-existent lock" warning can
      be logged. */
  lemma UnlocksFindTheirEntry(s0: State, actions: seq<Action>, i: nat)
    requires Initial(s0) && ValidDisk(s0.disk) && Execute(s0, actions).Some?
    ensures var s := Execute(s0, actions).value;
            && (Enabled(s, DropRead(i)) ==> s.readers[i].path in s.table)
            && (Enabled(s, DropWrite) ==> LockPlan(Current(s))[s.pc.held - 1] in s.table)
  {
    RunsAreGood(s0, actions);
    DropsFindEntry(Execute(s0, actions).value, i);
  }

  lemma DropsFindEntry(s: State, i: nat)
    requires Shape(s) && LocksExact(s)
    ensures Enabled(s, DropRead(i)) ==> s.readers[i].path in s.table
    ensures Enabled(s, DropWrite) ==> LockPlan(Current(s))[s.pc.held - 1] in s.table
  {
    if Enabled(s, DropRead(i)) {
      ReaderReleased(s, i, s.readers[i].(pc := NotCalled));
    }
    if Enabled(s, DropWrite) {
      WriteReleased(s, WriteDropped(s));
    }
  }

  /** Whoever sleeps on a condition variable without having been notified waits for something that
      is not there: a lock it could not get, or a closure that has not run. */
  lemma SleepersHaveReason(s0: State, actions: seq<Action>)
    requires Initial(s0) && ValidDisk(s0.disk) && Execute(s0, actions).Some?
    ensures var s := Execute(s0, actions).value;
            && (forall i :: 0 <= i < |s.readers| && s.readers[i].pc.Locking? && s.readers[i].pc.wake.Asleep? ==>
                  !CanRead(s.table, s.readers[i].path))
            && (s.pc.Taking? && s.pc.wake.Asleep? ==>
                  Busy(s) && s.pc.held < |LockPlan(Current(s))| && !CanWrite(s.table, LockPlan(Current(s))[s.pc.held]))
            && (forall w :: 0 <= w < |s.waiters| && s.waiters[w].pc == Waiting(Asleep) ==> s.waiters[w].outcome.None?)
  {
    RunsAreGood(s0, actions);
    var s := Execute(s0, actions).value;
    forall i | 0 <= i < |s.readers| && s.readers[i].pc.Locking? && s.readers[i].pc.wake.Asleep?
      ensures !CanRead(s.table, s.readers[i].path)
    {
      assert ReaderSleepsRightly(s, s.readers[i]);
    }
    forall w | 0 <= w < |s.waiters| && s.waiters[w].pc == Waiting(Asleep) ensures s.waiters[w].outcome.None? {
      assert WaiterRight(s, s.waiters[w]);
    }
  }

  /** Replica agreement over all schedules: two nodes that start from the same tree and execute the
      same log, each with its own readers, short writes, interruptions and wake-ups, report the same
      status for every entry both have completed; and whenever both are between entries at the same
      position they hold the same tree. */
  lemma ReplicasAgree(a0: State, b0: State, xs: seq<Action>, ys: seq<Action>)
    requires Initial(a0) && ValidDisk(a0.disk) && Execute(a0, xs).Some?
    requires Initial(b0) && ValidDisk(b0.disk) && Execute(b0, ys).Some?
    requires a0.origin == b0.origin && a0.log == b0.log
    ensures var a, b := Execute(a0, xs).value, Execute(b0, ys).value;
            && (a.applied <= b.applied ==> a.statuses <= b.statuses)
            && (b.applied <= a.applied ==> b.statuses <= a.statuses)
            && (a.applied == b.applied && a.pc.Fetching? && b.pc.Fetching? ==> View(a.disk) == View(b.disk))
  {
    RunsAreGood(a0, xs);
    RunsAreGood(b0, ys);
    var a, b := Execute(a0, xs).value, Execute(b0, ys).value;
    if a.applied <= b.applied {
      StatusesOfPrefix(a0.origin, a0.log[..a.applied], a0.log[..b.applied]);
    } else {
      StatusesOfPrefix(a0.origin, a0.log[..b.applied], a0.log[..a.applied]);
    }
  }
}
