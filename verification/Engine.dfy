/**
  The storage engine as a step system: any number of `read_file` calls from RPC threads, the one
  applier thread that executes the committed log, and the RPC threads that wait on closures.

  A step is what one thread does under one mutex, or one system call.  The scheduler picks any
  enabled step.  Some steps only make noise: an interrupted system call, a spurious wake-up of a
  condition variable, or Raft giving up on a proposal.

  Fields `since`, `at` and `until` of a reader are history: how many commands were complete when
  the call began, the command count its answer belongs to, and how many had begun at return.
 */
module Engine {
  import opened Basics
  import opened Paths
  import opened FileTree
  import opened Commands
  import opened DiskModel
  import opened Locks

  /** A thread in front of a condition variable. */
  datatype Wake = Awake | Asleep | Notified

  datatype ReaderPc =
    | NotCalled
    | Locking(since: nat, wake: Wake)
    | Opening(since: nat)
    | Statting(since: nat, at: nat, inode: Inode)
    | Reading(since: nat, at: nat, inode: Inode, size: nat, got: Bytes)
    | Unlocking(since: nat, at: nat, result: Result<Bytes>)
    | Returned(since: nat, at: nat, until: nat, result: Result<Bytes>)

  datatype Reader = Reader(path: string, pc: ReaderPc)

  datatype ApplierPc =
    | Fetching
    | Taking(held: nat, wake: Wake)
    | Calling
    | Writing(inode: Inode, written: nat)
    | Releasing(held: nat, status: Status)

  /** An RPC thread in `apply_write_command` after `raft_node_->apply(task)`: its command is at
      log position `entry`, and `outcome` is the closure's status once `Run` was called. */
  datatype Waiter = Waiter(entry: nat, outcome: Option<Status>, pc: WaiterPc)

  datatype WaiterPc = Waiting(wake: Wake) | Resumed

  datatype State = State(
    origin: Tree<Bytes>,
    log: seq<Command>,
    readers: seq<Reader>,
    waiters: seq<Waiter>,
    table: Table,
    disk: Disk,
    applied: nat,
    statuses: seq<Status>,
    pc: ApplierPc)

  datatype Action =
    | CallRead(i: nat)
    | TryRead(i: nat)
    | OpenRead(i: nat)
    | StatRead(i: nat)
    | ReadSome(i: nat, n: nat)
    | ReadEnd(i: nat)
    | DropRead(i: nat)
    | Fetch
    | TryWrite
    | Issue
    | WriteSome(n: nat)
    | FinishWrite
    | DropWrite
    | Complete
    | RunClosure(w: nat)
    | CheckClosure(w: nat)
    | WakeReader(i: nat)
    | WakeApplier
    | WakeWaiter(w: nat)
    | Interrupt
    | FailClosure(w: nat)

  predicate Noise(a: Action)
  {
    a.WakeReader? || a.WakeApplier? || a.WakeWaiter? || a.Interrupt? || a.FailClosure?
  }

  /* ---------- Locks taken by a command ---------- */

  /** The write guards that a command takes, in order.  Directories are not locked. */
  function LockPlan(c: Command): seq<string>
  {
    if !Accepts(c) || c.kind.CreateDir? || c.kind.DeleteDir? then []
    else if c.kind.RenameEntry? then [c.path, c.newPath]
    else [c.path]
  }

  function Current(s: State): Command
    requires s.applied < |s.log|
  {
    s.log[s.applied]
  }

  predicate Busy(s: State)
  {
    !s.pc.Fetching? && s.applied < |s.log|
  }

  /** The write guards alive. */
  function WriteGuards(s: State): seq<string>
  {
    if !Busy(s) then []
    else
      var plan := LockPlan(Current(s));
      match s.pc
      case Fetching => []
      case Taking(held, _) => if held <= |plan| then plan[..held] else plan
      case Calling => plan
      case Writing(_, _) => plan
      case Releasing(held, _) => if held <= |plan| then plan[..held] else plan
  }

  predicate HoldsGuard(r: Reader)
  {
    !r.pc.NotCalled? && !r.pc.Locking? && !r.pc.Returned?
  }

  function GuardOf(r: Reader): multiset<string>
  {
    if HoldsGuard(r) then multiset{r.path} else multiset{}
  }

  /** The read guards alive, with multiplicity. */
  function ReadGuards(rs: seq<Reader>): multiset<string>
  {
    if rs == [] then multiset{} else ReadGuards(rs[..|rs| - 1]) + GuardOf(rs[|rs| - 1])
  }

  /* ---------- Condition variable of the lock table ---------- */

  function Roused(w: Wake): Wake
  {
    if w.Asleep? then Notified else w
  }

  function RousedReader(r: Reader): Reader
  {
    if r.pc.Locking? then r.(pc := r.pc.(wake := Roused(r.pc.wake))) else r
  }

  function RousedReaders(rs: seq<Reader>): (r: seq<Reader>)
    ensures |r| == |rs| && forall i :: 0 <= i < |rs| ==> r[i] == RousedReader(rs[i])
  {
    if rs == [] then [] else RousedReaders(rs[..|rs| - 1]) + [RousedReader(rs[|rs| - 1])]
  }

  /** `cv_.notify_all()`. */
  function NotifyAll(s: State): State
  {
    s.(readers := RousedReaders(s.readers),
       pc := if s.pc.Taking? then s.pc.(wake := Roused(s.pc.wake)) else s.pc)
  }

  /* ---------- Steps ---------- */

  function SetReader(s: State, i: nat, pc: ReaderPc): State
    requires i < |s.readers|
  {
    s.(readers := s.readers[i := s.readers[i].(pc := pc)])
  }

  function SetWaiter(s: State, w: nat, wt: Waiter): State
    requires w < |s.waiters|
  {
    s.(waiters := s.waiters[w := wt])
  }

  /** How many commands have begun to take effect. */
  function Started(s: State): nat
  {
    s.applied + if s.pc.Writing? || s.pc.Releasing? then 1 else 0
  }

  predicate ReaderEnabled(s: State, a: Action)
    requires ReaderStep(a) || a.DropRead?
  {
    a.i < |s.readers| &&
    var pc := s.readers[a.i].pc;
    match a
    case CallRead(_) => pc.NotCalled?
    case TryRead(_) => pc.Locking? && !pc.wake.Asleep?
    case OpenRead(_) => pc.Opening?
    case StatRead(_) => pc.Statting?
    case ReadSome(_, n) =>
      pc.Reading? && 1 <= n && |pc.got| + n <= pc.size && |pc.got| + n <= |Content(s.disk, pc.inode)|
    case ReadEnd(_) => pc.Reading? && (|pc.got| >= pc.size || |pc.got| >= |Content(s.disk, pc.inode)|)
    case DropRead(_) => pc.Unlocking?
    case WakeReader(_) => pc.Locking? && pc.wake.Asleep?
  }

  predicate Enabled(s: State, a: Action)
  {
    match a
    case CallRead(_) => ReaderEnabled(s, a)
    case TryRead(_) => ReaderEnabled(s, a)
    case OpenRead(_) => ReaderEnabled(s, a)
    case StatRead(_) => ReaderEnabled(s, a)
    case ReadSome(_, _) => ReaderEnabled(s, a)
    case ReadEnd(_) => ReaderEnabled(s, a)
    case DropRead(_) => ReaderEnabled(s, a)
    case WakeReader(_) => ReaderEnabled(s, a)
    case Fetch => s.pc.Fetching? && s.applied < |s.log|
    case TryWrite => Busy(s) && s.pc.Taking? && !s.pc.wake.Asleep? && s.pc.held < |LockPlan(Current(s))|
    case Issue => Busy(s) && s.pc.Calling?
    case WriteSome(n) =>
      && Busy(s) && s.pc.Writing? && s.pc.inode < |s.disk.data|
      && 1 <= n && s.pc.written + n <= |Current(s).contents|
    case FinishWrite => Busy(s) && s.pc.Writing? && s.pc.written >= |Current(s).contents|
    case DropWrite => Busy(s) && s.pc.Releasing? && 0 < s.pc.held <= |LockPlan(Current(s))|
    case Complete => Busy(s) && s.pc.Releasing? && s.pc.held == 0
    case RunClosure(w) =>
      && w < |s.waiters| && s.waiters[w].outcome.None?
      && s.waiters[w].entry < s.applied && s.waiters[w].entry < |s.statuses|
    case CheckClosure(w) => w < |s.waiters| && s.waiters[w].pc.Waiting? && !s.waiters[w].pc.wake.Asleep?
    case WakeApplier => s.pc.Taking? && s.pc.wake.Asleep?
    case WakeWaiter(w) => w < |s.waiters| && s.waiters[w].pc.Waiting? && s.waiters[w].pc.wake.Asleep?
    case Interrupt => true
    case FailClosure(w) => w < |s.waiters| && s.waiters[w].outcome.None?
  }

  /** `read_file` up to its lock: validation, which touches nothing shared. */
  function DoCallRead(s: State, i: nat): State
    requires Enabled(s, CallRead(i))
  {
    if Accepted(s.readers[i].path) then SetReader(s, i, Locking(s.applied, Awake))
    else SetReader(s, i, Returned(s.applied, s.applied, s.applied, Err(InvalidPath)))
  }

  function DoTryRead(s: State, i: nat): State
    requires Enabled(s, TryRead(i))
  {
    var r := s.readers[i];
    if CanRead(s.table, r.path) then SetReader(s.(table := LockRead(s.table, r.path)), i, Opening(r.pc.since))
    else SetReader(s, i, r.pc.(wake := Asleep))
  }

  /** open(O_RDONLY).  A directory opens too, and then fails to be read with EISDIR. */
  function DoOpenRead(s: State, i: nat): State
    requires Enabled(s, OpenRead(i))
  {
    var r := s.readers[i];
    var g := TargetOf(r.path);
    if !Present(s.disk.tree, g)
    then SetReader(s, i, Unlocking(r.pc.since, Started(s), Err(CodeOf(Missing(s.disk.tree, g)))))
    else match s.disk.tree[g.path]
      case Dir => SetReader(s, i, Unlocking(r.pc.since, Started(s), Err(IoError)))
      case File(inode) => SetReader(s, i, Statting(r.pc.since, Started(s), inode))
  }

  function DoStatRead(s: State, i: nat): State
    requires Enabled(s, StatRead(i))
  {
    var pc := s.readers[i].pc;
    var size := |Content(s.disk, pc.inode)|;
    SetReader(s, i, if size > SIZE_LIMIT then Unlocking(pc.since, pc.at, Err(IoError))
                    else Reading(pc.since, pc.at, pc.inode, size, []))
  }

  function DoReadSome(s: State, i: nat, n: nat): State
    requires Enabled(s, ReadSome(i, n))
  {
    var pc := s.readers[i].pc;
    var k := |pc.got|;
    SetReader(s, i, pc.(got := pc.got + Content(s.disk, pc.inode)[k..k + n]))
  }

  function DoReadEnd(s: State, i: nat): State
    requires Enabled(s, ReadEnd(i))
  {
    var pc := s.readers[i].pc;
    SetReader(s, i, Unlocking(pc.since, pc.at, Ok(pc.got)))
  }

  function DoDropRead(s: State, i: nat): State
    requires Enabled(s, DropRead(i))
  {
    var r := s.readers[i];
    NotifyAll(SetReader(s.(table := UnlockRead(s.table, r.path)), i,
                        Returned(r.pc.since, r.pc.at, Started(s), r.pc.result)))
  }

  function DoFetch(s: State): State
    requires Enabled(s, Fetch)
  {
    s.(pc := if LockPlan(Current(s)) == [] then Calling else Taking(0, Awake))
  }

  function DoTryWrite(s: State): State
    requires Enabled(s, TryWrite)
  {
    var plan, held := LockPlan(Current(s)), s.pc.held;
    if CanWrite(s.table, plan[held])
    then s.(table := LockWrite(s.table, plan[held]),
            pc := if held + 1 == |plan| then Calling else Taking(held + 1, Awake))
    else s.(pc := Taking(held, Asleep))
  }

  /** The command's system call, or its rejection. */
  function DoIssue(s: State): State
    requires Enabled(s, Issue)
  {
    var c := Current(s);
    if !Accepts(c) then s.(pc := Releasing(0, Rejection(c)))
    else
      var d, err, p := DiskCall(s.disk, c), DiskErr(s.disk, c), TargetOf(c.path).path;
      s.(disk := d,
         pc := if err.None? && Writes(c.kind) && IsFile(d.tree, p) then Writing(d.tree[p].f, 0)
               else Releasing(|LockPlan(c)|, StatusOf(c.kind, err)))
  }

  function DoWriteSome(s: State, n: nat): State
    requires Enabled(s, WriteSome(n))
  {
    var c, k := Current(s), s.pc.written;
    s.(disk := WriteChunk(s.disk, s.pc.inode, c.kind.AppendFile?, k, c.contents[k..k + n]),
       pc := s.pc.(written := k + n))
  }

  function DoDropWrite(s: State): State
    requires Enabled(s, DropWrite)
  {
    var held := s.pc.held - 1;
    NotifyAll(s.(table := UnlockWrite(s.table, LockPlan(Current(s))[held]), pc := s.pc.(held := held)))
  }

  function DoComplete(s: State): State
    requires Enabled(s, Complete)
  {
    s.(applied := s.applied + 1, statuses := s.statuses + [s.pc.status], pc := Fetching)
  }

  /** `RaftClosure::Run` with the given status: sets `done_` and notifies. */
  function DoRun(s: State, w: nat, status: Status): State
    requires w < |s.waiters|
  {
    var wt := s.waiters[w];
    SetWaiter(s, w, wt.(outcome := Some(status),
                        pc := if wt.pc.Waiting? then Waiting(Roused(wt.pc.wake)) else wt.pc))
  }

  /** One check of the predicate in `RaftClosure::wait`. */
  function DoCheck(s: State, w: nat): State
    requires Enabled(s, CheckClosure(w))
  {
    SetWaiter(s, w, s.waiters[w].(pc := if s.waiters[w].outcome.Some? then Resumed else Waiting(Asleep)))
  }

  function Do(s: State, a: Action): State
    requires Enabled(s, a)
  {
    match a
    case CallRead(i) => DoCallRead(s, i)
    case TryRead(i) => DoTryRead(s, i)
    case OpenRead(i) => DoOpenRead(s, i)
    case StatRead(i) => DoStatRead(s, i)
    case ReadSome(i, n) => DoReadSome(s, i, n)
    case ReadEnd(i) => DoReadEnd(s, i)
    case DropRead(i) => DoDropRead(s, i)
    case Fetch => DoFetch(s)
    case TryWrite => DoTryWrite(s)
    case Issue => DoIssue(s)
    case WriteSome(n) => DoWriteSome(s, n)
    case FinishWrite => s.(pc := Releasing(|LockPlan(Current(s))|, Fine))
    case DropWrite => DoDropWrite(s)
    case Complete => DoComplete(s)
    case RunClosure(w) => DoRun(s, w, s.statuses[s.waiters[w].entry])
    case CheckClosure(w) => DoCheck(s, w)
    case WakeReader(i) => SetReader(s, i, s.readers[i].pc.(wake := Notified))
    case WakeApplier => s.(pc := s.pc.(wake := Notified))
    case WakeWaiter(w) => SetWaiter(s, w, s.waiters[w].(pc := Waiting(Notified)))
    case Interrupt => s
    case FailClosure(w) => DoRun(s, w, Failed(IoError))
  }

  /* ---------- Runs ---------- */

  predicate Initial(s: State)
  {
    && (forall i :: 0 <= i < |s.readers| ==> s.readers[i].pc.NotCalled?)
    && (forall w :: 0 <= w < |s.waiters| ==> InitialWaiter(s.waiters[w], |s.log|))
    && s.table == map[]
    && s.origin == View(s.disk)
    && s.applied == 0 && s.statuses == [] && s.pc == Fetching
  }

  predicate InitialWaiter(wt: Waiter, n: nat)
  {
    wt.entry < n && wt.outcome.None? && wt.pc == Waiting(Awake)
  }

  /** The state after the actions, if each was enabled in turn. */
  function Execute(s: State, actions: seq<Action>): Option<State>
  {
    if actions == [] then Some(s)
    else
      match Execute(s, actions[..|actions| - 1])
      case None => None
      case Some(m) => if Enabled(m, actions[|actions| - 1]) then Some(Do(m, actions[|actions| - 1])) else None
  }

  predicate Finished(s: State)
  {
    && s.pc.Fetching? && s.applied >= |s.log|
    && (forall i :: 0 <= i < |s.readers| ==> s.readers[i].pc.Returned?)
    && (forall w :: 0 <= w < |s.waiters| ==> s.waiters[w].pc.Resumed?)
  }

  /** What no step changes. */
  ghost predicate SameFrame(s: State, s': State)
  {
    && s'.origin == s.origin && s'.log == s.log
    && |s'.readers| == |s.readers| && |s'.waiters| == |s.waiters|
    && (forall i :: 0 <= i < |s.readers| ==> s'.readers[i].path == s.readers[i].path)
    && (forall w :: 0 <= w < |s.waiters| ==> s'.waiters[w].entry == s.waiters[w].entry)
  }

  /** The steps of `read_file` that one reader takes without notifying anyone. */
  predicate ReaderStep(a: Action)
  {
    a.CallRead? || a.TryRead? || a.OpenRead? || a.StatRead? || a.ReadSome? || a.ReadEnd? || a.WakeReader?
  }

  predicate WaiterStep(a: Action)
  {
    a.RunClosure? || a.CheckClosure? || a.WakeWaiter? || a.FailClosure?
  }

  /** Such a step changes that reader's program counter, and for `TryRead` the lock table. */
  lemma ReaderStepShape(s: State, a: Action)
    requires Enabled(s, a) && ReaderStep(a)
    ensures a.i < |s.readers| && |Do(s, a).readers| == |s.readers|
    ensures Do(s, a) == SetReader(s.(table := Do(s, a).table), a.i, Do(s, a).readers[a.i].pc)
    ensures !a.TryRead? ==> Do(s, a).table == s.table
  {
    if a.OpenRead? {
      OpenShape(s, a.i);
    } else if a.TryRead? {
      LockShape(s, a.i);
    }
  }

  lemma OpenShape(s: State, i: nat)
    requires Enabled(s, OpenRead(i))
    ensures |DoOpenRead(s, i).readers| == |s.readers|
    ensures DoOpenRead(s, i) == SetReader(s, i, DoOpenRead(s, i).readers[i].pc)
  {
  }

  lemma LockShape(s: State, i: nat)
    requires Enabled(s, TryRead(i))
    ensures var s' := DoTryRead(s, i);
            |s'.readers| == |s.readers| && s' == SetReader(s.(table := s'.table), i, s'.readers[i].pc)
  {
  }

  lemma WaiterStepShape(s: State, a: Action)
    requires Enabled(s, a) && WaiterStep(a)
    ensures a.w < |s.waiters| && |Do(s, a).waiters| == |s.waiters|
    ensures Do(s, a) == SetWaiter(s, a.w, Do(s, a).waiters[a.w])
    ensures Do(s, a).waiters[a.w].entry == s.waiters[a.w].entry
  {
  }

  /** Every other step leaves the readers alone, or rouses them. */
  lemma OtherStepShape(s: State, a: Action)
    requires Enabled(s, a) && !ReaderStep(a) && !WaiterStep(a) && !a.DropRead?
    ensures var s' := Do(s, a);
            && s'.origin == s.origin && s'.log == s.log && s'.waiters == s.waiters
            && (s'.readers == s.readers || s'.readers == RousedReaders(s.readers))
  {
  }

  lemma StepFrame(s: State, a: Action)
    requires Enabled(s, a)
    ensures SameFrame(s, Do(s, a))
  {
    if ReaderStep(a) {
      ReaderStepShape(s, a);
      ReaderFrame(s, Do(s, a), a.i);
    } else if WaiterStep(a) {
      WaiterStepShape(s, a);
      WaiterFrame(s, Do(s, a), a.w);
    } else if a.DropRead? {
      DropShape(s, a.i);
    } else {
      OtherStepShape(s, a);
      OtherFrame(s, Do(s, a));
    }
  }

  lemma ReaderFrame(s: State, s': State, i: nat)
    requires i < |s.readers| == |s'.readers| && s' == SetReader(s.(table := s'.table), i, s'.readers[i].pc)
    ensures SameFrame(s, s')
  {
  }

  lemma WaiterFrame(s: State, s': State, w: nat)
    requires w < |s.waiters| == |s'.waiters| && s' == SetWaiter(s, w, s'.waiters[w])
    requires s'.waiters[w].entry == s.waiters[w].entry
    ensures SameFrame(s, s')
  {
  }

  lemma OtherFrame(s: State, s': State)
    requires s'.origin == s.origin && s'.log == s.log && s'.waiters == s.waiters
    requires s'.readers == s.readers || s'.readers == RousedReaders(s.readers)
    ensures SameFrame(s, s')
  {
  }

  lemma DropShape(s: State, i: nat)
    requires Enabled(s, DropRead(i))
    ensures SameFrame(s, DoDropRead(s, i))
  {
  }
}
