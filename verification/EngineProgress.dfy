/**
  Deadlock freedom and termination of the engine, with the exact exception: a rename whose two raw
  paths are the same string locks itself out.
 */
module EngineProgress {
  import opened Basics
  import opened Commands
  import opened DiskModel
  import opened Locks
  import opened Engine
  import opened EngineLocks
  import opened EngineEffects

  /* ---------- Some step is enabled ---------- */

  /** An accepted rename that takes the same lock twice. */
  predicate SelfRename(c: Command)
  {
    c.kind.RenameEntry? && Accepts(c) && c.path == c.newPath
  }

  /** The applier waits for a lock that it holds itself. */
  predicate SelfLocked(s: State)
  {
    Busy(s) && s.pc == Taking(1, Asleep) && SelfRename(Current(s))
  }

  /** The reader is done, or asleep. */
  predicate AtRest(pc: ReaderPc)
  {
    pc.Returned? || (pc.Locking? && pc.wake.Asleep?)
  }

  predicate Quiescent(s: State)
  {
    && (forall i :: 0 <= i < |s.readers| ==> AtRest(s.readers[i].pc))
    && (s.pc.Fetching? || (s.pc.Taking? && s.pc.wake.Asleep?))
  }

  lemma ReaderCanMove(s: State, i: nat) returns (a: Action)
    requires i < |s.readers|
    requires !AtRest(s.readers[i].pc)
    ensures Enabled(s, a) && !Noise(a)
  {
    var pc := s.readers[i].pc;
    match pc
    case NotCalled => a := CallRead(i);
    case Locking(_, _) => a := TryRead(i);
    case Opening(_) => a := OpenRead(i);
    case Statting(_, _, _) => a := StatRead(i);
    case Reading(_, _, inode, size, got) =>
      if |got| < size && |got| < |Content(s.disk, inode)| {
        a := ReadSome(i, 1);
      } else {
        a := ReadEnd(i);
      }
    case Unlocking(_, _, _) => a := DropRead(i);
  }

  lemma ApplierCanMove(s: State) returns (a: Action)
    requires Shape(s) && !s.pc.Fetching? && !(s.pc.Taking? && s.pc.wake.Asleep?)
    ensures Enabled(s, a) && !Noise(a)
  {
    match s.pc
    case Taking(_, _) => a := TryWrite;
    case Calling => a := Issue;
    case Writing(_, written) => a := if written < |Current(s).contents| then WriteSome(1) else FinishWrite;
    case Releasing(held, _) => a := if held > 0 then DropWrite else Complete;
  }

  /** With every reader and the applier at rest, nobody but a self-locked applier is asleep. */
  lemma SleepersAtRest(s: State)
    requires Sound(s) && Quiescent(s) && !SelfLocked(s)
    ensures s.pc.Fetching?
    ensures forall i :: 0 <= i < |s.readers| ==> s.readers[i].pc.Returned?
  {
    if s.pc.Taking? {
      ApplierSleepsOnItself(s);
      assert false;
    }
    forall i | 0 <= i < |s.readers| ensures s.readers[i].pc.Returned? {
      assert ReaderSleepsRightly(s, s.readers[i]);
      AdmissionIsExact(s.table, ReadGuards(s.readers), multiset(WriteGuards(s)), s.readers[i].path);
      assert WriteGuards(s) == [];
    }
  }

  lemma NoGuardsAtRest(s: State, p: string)
    requires Quiescent(s)
    ensures p !in ReadGuards(s.readers)
  {
    if p in ReadGuards(s.readers) {
      var i := GuardHasHolder(s.readers, p);
      assert false;
    }
  }

  lemma ApplierSleepsOnItself(s: State)
    requires Sound(s) && Quiescent(s) && s.pc.Taking?
    ensures SelfLocked(s)
  {
    var plan, held := LockPlan(Current(s)), s.pc.held;
    NoGuardsAtRest(s, plan[held]);
    AdmissionIsExact(s.table, ReadGuards(s.readers), multiset(WriteGuards(s)), plan[held]);
    assert plan[held] in multiset(plan[..held]);
    assert plan[held] in plan[..held];
  }

  /** Deadlock freedom: work left and no self-lock means that some step other than noise is enabled. */
  lemma SomeStepIsEnabled(s: State) returns (a: Action)
    requires Sound(s) && !Finished(s) && !SelfLocked(s)
    ensures Enabled(s, a) && !Noise(a)
  {
    if i :| 0 <= i < |s.readers| && !AtRest(s.readers[i].pc) {
      a := ReaderCanMove(s, i);
    } else if !s.pc.Fetching? && !(s.pc.Taking? && s.pc.wake.Asleep?) {
      a := ApplierCanMove(s);
    } else {
      SleepersAtRest(s);
      if s.applied < |s.log| {
        a := Fetch;
      } else {
        var w :| 0 <= w < |s.waiters| && !s.waiters[w].pc.Resumed?;
        assert WaiterRight(s, s.waiters[w]);
        a := if s.waiters[w].pc.wake.Asleep? then RunClosure(w) else CheckClosure(w);
      }
    }
  }

  /* ---------- The measure ---------- */

  function Sum(ws: seq<nat>): nat
  {
    if ws == [] then 0 else Sum(ws[..|ws| - 1]) + ws[|ws| - 1]
  }

  lemma {:induction false} SumUpdated(ws: seq<nat>, i: nat, v: nat)
    requires i < |ws|
    ensures Sum(ws[i := v]) == Sum(ws) - ws[i] + v
  {
    var n := |ws| - 1;
    if i == n {
      assert ws[i := v][..n] == ws[..n];
    } else {
      assert ws[i := v][..n] == ws[..n][i := v];
      SumUpdated(ws[..n], i, v);
    }
  }

  lemma {:induction false} SumOfBits(ws: seq<nat>)
    requires forall i :: 0 <= i < |ws| ==> ws[i] <= 1
    ensures Sum(ws) <= |ws|
  {
    if ws != [] {
      SumOfBits(ws[..|ws| - 1]);
    }
  }

  /** How many more steps a reader needs, lock retries aside. */
  function ReaderWork(r: Reader): nat
  {
    match r.pc
    case NotCalled => SIZE_LIMIT + 7
    case Locking(_, _) => SIZE_LIMIT + 6
    case Opening(_) => SIZE_LIMIT + 5
    case Statting(_, _, _) => SIZE_LIMIT + 4
    case Reading(_, _, _, size, got) => 3 + if |got| < size then size - |got| else 0
    case Unlocking(_, _, _) => 2
    case Returned(_, _, _, _) => 0
  }

  function AwakeBit(w: Wake): nat
  {
    if w.Asleep? then 0 else 1
  }

  function ReaderAwake(r: Reader): nat
  {
    if r.pc.Locking? then AwakeBit(r.pc.wake) else 0
  }

  function WaiterWork(w: Waiter): nat
  {
    (if w.outcome.None? then 1 else 0) + (if w.pc.Waiting? then 1 else 0)
  }

  function WaiterAwake(w: Waiter): nat
  {
    if w.pc.Waiting? then AwakeBit(w.pc.wake) else 0
  }

  function EntryWork(c: Command): nat
  {
    |c.contents| + 2 * |LockPlan(c)| + 4
  }

  function LogWork(log: seq<Command>): nat
  {
    if log == [] then 0 else EntryWork(log[0]) + LogWork(log[1..])
  }

  /** What is left of the command in hand. */
  function StageWork(c: Command, pc: ApplierPc): nat
  {
    var n, k := |c.contents|, |LockPlan(c)|;
    match pc
    case Fetching => 0
    case Taking(held, _) => n + k + 3 + if held < k then k - held else 0
    case Calling => n + k + 3
    case Writing(_, written) => k + 2 + if written < n then n - written else 0
    case Releasing(held, _) => held + 1
  }

  function ApplierWork(s: State): nat
  {
    if s.applied >= |s.log| then 0
    else if s.pc.Fetching? then LogWork(s.log[s.applied..])
    else StageWork(Current(s), s.pc) + LogWork(s.log[s.applied + 1..])
  }

  function ReaderWorks(rs: seq<Reader>): seq<nat>
  {
    seq(|rs|, i requires 0 <= i < |rs| => ReaderWork(rs[i]))
  }

  function ReaderBits(rs: seq<Reader>): seq<nat>
  {
    seq(|rs|, i requires 0 <= i < |rs| => ReaderAwake(rs[i]))
  }

  function WaiterWorks(ws: seq<Waiter>): seq<nat>
  {
    seq(|ws|, i requires 0 <= i < |ws| => WaiterWork(ws[i]))
  }

  function WaiterBits(ws: seq<Waiter>): seq<nat>
  {
    seq(|ws|, i requires 0 <= i < |ws| => WaiterAwake(ws[i]))
  }

  function Work(s: State): nat
  {
    Sum(ReaderWorks(s.readers)) + Sum(WaiterWorks(s.waiters)) + ApplierWork(s)
  }

  function ApplierAwake(s: State): nat
  {
    if s.pc.Taking? then AwakeBit(s.pc.wake) else 0
  }

  /** Threads that may look at what they wait for. */
  function AwakeCount(s: State): nat
  {
    Sum(ReaderBits(s.readers)) + Sum(WaiterBits(s.waiters)) + ApplierAwake(s)
  }

  function Weight(s: State): nat
  {
    |s.readers| + |s.waiters| + 2
  }

  function Product(a: nat, b: nat): nat
  {
    a * b
  }

  function Measure(s: State): nat
  {
    Product(Work(s), Weight(s)) + AwakeCount(s)
  }

  lemma AwakeIsBounded(s: State)
    ensures AwakeCount(s) < Weight(s)
  {
    SumOfBits(ReaderBits(s.readers));
    SumOfBits(WaiterBits(s.waiters));
  }

  /* ---------- How steps change it ---------- */

  lemma ReaderReplaced(s: State, s': State, i: nat)
    requires i < |s.readers| == |s'.readers| && s'.waiters == s.waiters
    requires s'.readers == s.readers[i := s'.readers[i]]
    ensures Work(s') - ApplierWork(s') ==
            Work(s) - ApplierWork(s) - ReaderWork(s.readers[i]) + ReaderWork(s'.readers[i])
    ensures AwakeCount(s') - ApplierAwake(s') ==
            AwakeCount(s) - ApplierAwake(s) - ReaderAwake(s.readers[i]) + ReaderAwake(s'.readers[i])
  {
    assert ReaderWorks(s'.readers) == ReaderWorks(s.readers)[i := ReaderWork(s'.readers[i])];
    SumUpdated(ReaderWorks(s.readers), i, ReaderWork(s'.readers[i]));
    assert ReaderBits(s'.readers) == ReaderBits(s.readers)[i := ReaderAwake(s'.readers[i])];
    SumUpdated(ReaderBits(s.readers), i, ReaderAwake(s'.readers[i]));
  }

  lemma WaiterReplaced(s: State, w: nat, wt: Waiter)
    requires w < |s.waiters|
    ensures Work(SetWaiter(s, w, wt)) == Work(s) - WaiterWork(s.waiters[w]) + WaiterWork(wt)
    ensures AwakeCount(SetWaiter(s, w, wt)) == AwakeCount(s) - WaiterAwake(s.waiters[w]) + WaiterAwake(wt)
  {
    var s' := SetWaiter(s, w, wt);
    assert WaiterWorks(s'.waiters) == WaiterWorks(s.waiters)[w := WaiterWork(wt)];
    SumUpdated(WaiterWorks(s.waiters), w, WaiterWork(wt));
    assert WaiterBits(s'.waiters) == WaiterBits(s.waiters)[w := WaiterAwake(wt)];
    SumUpdated(WaiterBits(s.waiters), w, WaiterAwake(wt));
    assert ApplierWork(s') == ApplierWork(s);
  }

  lemma NotifyKeepsWork(s: State)
    ensures Work(NotifyAll(s)) == Work(s)
  {
    var s' := NotifyAll(s);
    assert ReaderWorks(s'.readers) == ReaderWorks(s.readers);
    assert s'.applied < |s'.log| ==> StageWork(Current(s'), s'.pc) == StageWork(Current(s), s.pc);
  }

  /** The lexicographic order behind the measure. */
  ghost predicate Lighter(s': State, s: State)
  {
    Work(s') < Work(s) || (Work(s') == Work(s) && AwakeCount(s') < AwakeCount(s))
  }

  lemma ReaderStepLightens(s: State, a: Action)
    requires Enabled(s, a) && ReaderStep(a) && !a.WakeReader?
    ensures Lighter(Do(s, a), s)
  {
    var s' := Do(s, a);
    ReaderStepShape(s, a);
    ReaderWorkDrops(s, a);
    ReaderReplaced(s, s', a.i);
  }

  /** The reader has less to do, or has fallen asleep. */
  lemma ReaderWorkDrops(s: State, a: Action)
    requires Enabled(s, a) && ReaderStep(a) && !a.WakeReader?
    ensures var r, r' := s.readers[a.i], Do(s, a).readers[a.i];
            ReaderWork(r') < ReaderWork(r) || (ReaderWork(r') == ReaderWork(r) && ReaderAwake(r') < ReaderAwake(r))
  {
    if a.StatRead? {
      StatLightens(s, a.i);
    } else if a.ReadSome? {
      ReadLightens(s, a.i, a.n);
    } else if a.OpenRead? {
      OpenLightens(s, a.i);
    }
  }

  lemma OpenLightens(s: State, i: nat)
    requires Enabled(s, OpenRead(i))
    ensures ReaderWork(DoOpenRead(s, i).readers[i]) < ReaderWork(s.readers[i])
  {
  }

  lemma ReadLightens(s: State, i: nat, n: nat)
    requires Enabled(s, ReadSome(i, n))
    ensures ReaderWork(DoReadSome(s, i, n).readers[i]) < ReaderWork(s.readers[i])
  {
  }

  lemma StatLightens(s: State, i: nat)
    requires Enabled(s, StatRead(i))
    ensures ReaderWork(DoStatRead(s, i).readers[i]) < ReaderWork(s.readers[i])
  {
    assert |Content(s.disk, s.readers[i].pc.inode)| <= SIZE_LIMIT || DoStatRead(s, i).readers[i].pc.Unlocking?;
  }

  lemma DropReadLightens(s: State, i: nat)
    requires Enabled(s, DropRead(i))
    ensures Lighter(DoDropRead(s, i), s)
  {
    var m := ReadDropped(s, i);
    ReaderReplaced(s, m, i);
    NotifyKeepsWork(m);
  }

  /** Work of an applier step, everything else unchanged. */
  lemma ApplierReplaced(s: State, s': State)
    requires s'.readers == s.readers && s'.waiters == s.waiters
    ensures Work(s') == Work(s) - ApplierWork(s) + ApplierWork(s')
    ensures AwakeCount(s') == AwakeCount(s) - ApplierAwake(s) + ApplierAwake(s')
  {
  }

  lemma LogWorkNext(log: seq<Command>, k: nat)
    requires k < |log|
    ensures LogWork(log[k..]) == EntryWork(log[k]) + LogWork(log[k + 1..])
  {
    assert log[k..][0] == log[k] && log[k..][1..] == log[k + 1..];
  }

  predicate ApplierStep(a: Action)
  {
    a.Fetch? || a.TryWrite? || a.Issue? || a.WriteSome? || a.FinishWrite? || a.Complete?
  }

  lemma ApplierStepLightens(s: State, a: Action)
    requires Shape(s) && Enabled(s, a) && ApplierStep(a)
    ensures Lighter(Do(s, a), s)
  {
    ApplierKeepsThreads(s, a);
    ApplierReplaced(s, Do(s, a));
    if a.Issue? {
      IssueLightens(s);
    } else if a.Complete? {
      CompleteLightens(s);
    } else {
      StageLightens(s, a);
    }
  }

  lemma ApplierKeepsThreads(s: State, a: Action)
    requires Enabled(s, a) && ApplierStep(a)
    ensures Do(s, a).readers == s.readers && Do(s, a).waiters == s.waiters
  {
  }

  lemma StageLightens(s: State, a: Action)
    requires Shape(s) && Enabled(s, a) && ApplierStep(a) && !a.Issue? && !a.Complete?
    ensures var s' := Do(s, a);
            || ApplierWork(s') < ApplierWork(s)
            || (ApplierWork(s') == ApplierWork(s) && ApplierAwake(s') < ApplierAwake(s))
  {
    if a.Fetch? {
      FetchLightens(s);
    } else if a.TryWrite? {
      LockingLightens(s);
    }
  }

  lemma FetchLightens(s: State)
    requires Enabled(s, Fetch)
    ensures ApplierWork(DoFetch(s)) < ApplierWork(s)
  {
    LogWorkNext(s.log, s.applied);
  }

  lemma LockingLightens(s: State)
    requires Enabled(s, TryWrite)
    ensures var s' := DoTryWrite(s);
            || ApplierWork(s') < ApplierWork(s)
            || (ApplierWork(s') == ApplierWork(s) && ApplierAwake(s') < ApplierAwake(s))
  {
  }

  lemma IssueLightens(s: State)
    requires Shape(s) && Enabled(s, Issue)
    ensures ApplierWork(DoIssue(s)) < ApplierWork(s)
  {
    IssueLeadsOn(s);
    assert StageWork(Current(s), DoIssue(s).pc) < StageWork(Current(s), s.pc);
  }

  lemma IssueLeadsOn(s: State)
    requires Shape(s) && Enabled(s, Issue)
    ensures var pc := DoIssue(s).pc;
            (pc.Writing? && pc.written == 0) || (pc.Releasing? && pc.held <= |LockPlan(Current(s))|)
  {
  }

  lemma CompleteLightens(s: State)
    requires Shape(s) && Enabled(s, Complete)
    ensures ApplierWork(DoComplete(s)) < ApplierWork(s)
  {
    if s.applied + 1 < |s.log| {
      assert DoComplete(s).log[s.applied + 1..] == s.log[s.applied + 1..];
    }
  }

  lemma DropWriteLightens(s: State)
    requires Shape(s) && Enabled(s, DropWrite)
    ensures Lighter(DoDropWrite(s), s)
  {
    var m := WriteDropped(s);
    ApplierReplaced(s, m);
    NotifyKeepsWork(m);
  }

  lemma ClosureStepLightens(s: State, a: Action)
    requires Sound(s) && Enabled(s, a) && (a.RunClosure? || a.CheckClosure?)
    ensures Lighter(Do(s, a), s)
  {
    WaiterStepShape(s, a);
    WaiterReplaced(s, a.w, Do(s, a).waiters[a.w]);
  }

  lemma WorkStepLightens(s: State, a: Action)
    requires Sound(s) && Enabled(s, a) && !Noise(a)
    ensures Lighter(Do(s, a), s)
  {
    if a.DropRead? {
      DropReadLightens(s, a.i);
    } else if a.DropWrite? {
      DropWriteLightens(s);
    } else if ApplierStep(a) {
      ApplierStepLightens(s, a);
    } else if ReaderStep(a) {
      ReaderStepLightens(s, a);
    } else {
      ClosureStepLightens(s, a);
    }
  }

  /** No heavier than before, except that one more thread may be awake. */
  ghost predicate HardlyHeavier(s': State, s: State)
  {
    Lighter(s', s) || (Work(s') == Work(s) && AwakeCount(s') <= AwakeCount(s) + 1)
  }

  /** Noise wakes at most one thread, or settles a closure. */
  lemma NoiseIsSmall(s: State, a: Action)
    requires Enabled(s, a) && Noise(a)
    ensures HardlyHeavier(Do(s, a), s)
  {
    if a.WakeReader? {
      ReaderNoise(s, a.i);
    } else if WaiterStep(a) {
      WaiterNoise(s, a);
    } else if a.WakeApplier? {
      ApplierReplaced(s, Do(s, a));
    }
  }

  lemma ReaderNoise(s: State, i: nat)
    requires Enabled(s, WakeReader(i))
    ensures HardlyHeavier(Do(s, WakeReader(i)), s)
  {
    ReaderStepShape(s, WakeReader(i));
    ReaderReplaced(s, Do(s, WakeReader(i)), i);
  }

  lemma WaiterNoise(s: State, a: Action)
    requires Enabled(s, a) && (a.WakeWaiter? || a.FailClosure?)
    ensures HardlyHeavier(Do(s, a), s)
  {
    WaiterStepShape(s, a);
    WaiterReplaced(s, a.w, Do(s, a).waiters[a.w]);
  }

  lemma LighterMeansLess(s': State, s: State)
    requires Lighter(s', s) && Weight(s') == Weight(s)
    ensures Measure(s') < Measure(s)
  {
    AwakeIsBounded(s');
    if Work(s') < Work(s) {
      ProductDrops(Work(s'), Work(s), Weight(s));
    }
  }

  lemma ProductDrops(a: nat, b: nat, k: nat)
    requires a < b
    ensures Product(a, k) + k <= Product(b, k)
  {
    assert (b - a - 1) * k >= 0;
    assert b * k == a * k + k + (b - a - 1) * k;
  }

  /** Every step but noise uses up the measure, and noise adds at most one to it. */
  lemma StepMeasured(s: State, a: Action)
    requires Sound(s) && Enabled(s, a)
    ensures !Noise(a) ==> Measure(Do(s, a)) < Measure(s)
    ensures Measure(Do(s, a)) <= Measure(s) + 1
  {
    StepFrame(s, a);
    if Noise(a) {
      NoiseMeasured(s, a);
    } else {
      WorkStepLightens(s, a);
      LighterMeansLess(Do(s, a), s);
    }
  }

  lemma NoiseMeasured(s: State, a: Action)
    requires Enabled(s, a) && Noise(a) && Weight(Do(s, a)) == Weight(s)
    ensures Measure(Do(s, a)) <= Measure(s) + 1
  {
    NoiseIsSmall(s, a);
    var s' := Do(s, a);
    if Lighter(s', s) {
      LighterMeansLess(s', s);
    }
  }

  function NoiseIn(actions: seq<Action>): nat
  {
    if actions == [] then 0
    else NoiseIn(actions[..|actions| - 1]) + if Noise(actions[|actions| - 1]) then 1 else 0
  }

  /** Termination: the length of any run is bounded by its initial state and its noise. */
  lemma {:induction false} RunsAreBounded(s0: State, actions: seq<Action>)
    requires Initial(s0) && ValidDisk(s0.disk) && Execute(s0, actions).Some?
    ensures |actions| + Measure(Execute(s0, actions).value) <= Measure(s0) + 2 * NoiseIn(actions)
  {
    if actions != [] {
      var before := actions[..|actions| - 1];
      RunsAreBounded(s0, before);
      RunsAreGood(s0, before);
      StepMeasured(Execute(s0, before).value, actions[|actions| - 1]);
    }
  }

  /* ---------- The exception, exactly ---------- */

  /** From the second lock of a self-rename the applier never moves on, whatever else happens. */
  ghost predicate Barred(s: State, k: nat)
  {
    && k < |s.log| && SelfRename(s.log[k]) && s.applied <= k
    && (s.applied == k ==> s.pc.Fetching? || (s.pc.Taking? && s.pc.held <= 1))
  }

  lemma StepStaysBarred(s: State, a: Action, k: nat)
    requires Sound(s) && Barred(s, k) && Enabled(s, a)
    ensures Barred(Do(s, a), k)
    ensures s.applied == k && s.pc.Taking? && s.pc.held == 1 ==>
              Do(s, a).applied == k && Do(s, a).pc.Taking? && Do(s, a).pc.held == 1
  {
    if a.TryWrite? && s.applied == k {
      SecondLockFails(s, k);
    } else {
      StepFrame(s, a);
      CompletesOne(s, a);
      if s.applied == k {
        WaitingGoesOn(s, a);
      }
    }
  }

  lemma CompletesOne(s: State, a: Action)
    requires Enabled(s, a)
    ensures if a.Complete? then Do(s, a).applied == s.applied + 1 && Do(s, a).pc.Fetching?
            else Do(s, a).applied == s.applied
  {
    if !a.Issue? && !a.WriteSome? && !a.FinishWrite? && !a.Complete? {
      QuietFrame(s, a);
    }
  }

  /** Before its first lock and between locks the applier moves only by its own steps. */
  lemma WaitingGoesOn(s: State, a: Action)
    requires Enabled(s, a) && !a.TryWrite? && (s.pc.Fetching? || s.pc.Taking?)
    ensures var pc := Do(s, a).pc;
            if s.pc.Taking? then pc.Taking? && pc.held == s.pc.held
            else pc == s.pc || (a.Fetch? && (pc == Taking(0, Awake) || LockPlan(Current(s)) == []))
  {
    if ReaderStep(a) {
      ReaderStepShape(s, a);
    } else if WaiterStep(a) {
      WaiterStepShape(s, a);
    }
  }

  lemma SecondLockFails(s: State, k: nat)
    requires Sound(s) && Barred(s, k) && s.applied == k && Enabled(s, TryWrite)
    ensures Barred(DoTryWrite(s), k) && DoTryWrite(s).applied == k
    ensures DoTryWrite(s).pc.Taking? && (s.pc.held == 1 ==> DoTryWrite(s).pc.held == 1)
  {
    var p := s.log[k].path;
    assert LockPlan(Current(s)) == [p, p];
    if s.pc.held == 1 {
      assert WriteGuards(s) == [p];
      assert p in multiset(WriteGuards(s));
      AdmissionIsExact(s.table, ReadGuards(s.readers), multiset(WriteGuards(s)), p);
    }
  }

  lemma {:induction false} RunsStayBarred(s0: State, actions: seq<Action>, k: nat)
    requires Initial(s0) && ValidDisk(s0.disk) && k < |s0.log| && SelfRename(s0.log[k])
    ensures Execute(s0, actions).Some? ==> Barred(Execute(s0, actions).value, k)
  {
    if actions != [] {
      var before := actions[..|actions| - 1];
      RunsStayBarred(s0, before, k);
      RunsAreGood(s0, before);
      if Execute(s0, actions).Some? {
        StepStaysBarred(Execute(s0, before).value, actions[|actions| - 1], k);
      }
    }
  }

  /** A self-locked applier stays so in every continuation. */
  lemma {:induction false} SelfLockIsForever(s0: State, actions: seq<Action>, more: seq<Action>)
    requires Initial(s0) && ValidDisk(s0.disk) && Execute(s0, actions).Some? && SelfLocked(Execute(s0, actions).value)
    requires Execute(s0, actions + more).Some?
    ensures var s, s' := Execute(s0, actions).value, Execute(s0, actions + more).value;
            s'.applied == s.applied && s'.pc.Taking? && s'.pc.held == 1 && s'.statuses == s.statuses
  {
    if more == [] {
      assert actions + more == actions;
    } else {
      var more' := more[..|more| - 1];
      assert (actions + more)[..|actions + more| - 1] == actions + more';
      SelfLockIsForever(s0, actions, more');
      RunsAreGood(s0, actions + more');
      RunsAreGood(s0, actions);
      var s, m := Execute(s0, actions).value, Execute(s0, actions + more').value;
      var a := more[|more| - 1];
      StepStaysBarred(m, a, s.applied);
      StuckStep(m, a);
    }
  }

  lemma StuckStep(m: State, a: Action)
    requires Shape(m) && Enabled(m, a) && m.pc.Taking?
    ensures Do(m, a).statuses == m.statuses
  {
    QuietFrame(m, a);
  }

  /** A run that can only continue with noise has finished everything exactly when the log holds no
      accepted rename of a raw path to itself; otherwise the applier has locked itself out. */
  lemma MaximalRunsFinish(s0: State, actions: seq<Action>)
    requires Initial(s0) && ValidDisk(s0.disk) && Execute(s0, actions).Some?
    requires forall a :: Enabled(Execute(s0, actions).value, a) ==> Noise(a)
    ensures Finished(Execute(s0, actions).value) <==> forall k :: 0 <= k < |s0.log| ==> !SelfRename(s0.log[k])
    ensures !Finished(Execute(s0, actions).value) ==> SelfLocked(Execute(s0, actions).value)
  {
    RunsAreGood(s0, actions);
    var s := Execute(s0, actions).value;
    if !Finished(s) && !SelfLocked(s) {
      var a := SomeStepIsEnabled(s);
      assert false;
    }
    forall k | 0 <= k < |s0.log| && SelfRename(s0.log[k]) ensures !Finished(s) {
      RunsStayBarred(s0, actions, k);
    }
  }

  /* ---------- and both ends are reached ---------- */

  lemma OneMore(s0: State, actions: seq<Action>, a: Action)
    requires Initial(s0) && ValidDisk(s0.disk) && Execute(s0, actions).Some?
    requires Enabled(Execute(s0, actions).value, a) && !Noise(a)
    ensures Execute(s0, actions + [a]).Some?
    ensures Measure(Execute(s0, actions + [a]).value) < Measure(Execute(s0, actions).value)
  {
    assert (actions + [a])[..|actions|] == actions;
    RunsAreGood(s0, actions);
    StepMeasured(Execute(s0, actions).value, a);
  }

  /** Every run can be continued until only noise is left. */
  lemma {:induction false} RunsExtend(s0: State, actions: seq<Action>) returns (xs: seq<Action>)
    requires Initial(s0) && ValidDisk(s0.disk) && Execute(s0, actions).Some?
    ensures actions <= xs && Execute(s0, xs).Some?
    ensures forall a :: Enabled(Execute(s0, xs).value, a) ==> Noise(a)
    decreases Measure(Execute(s0, actions).value)
  {
    xs := actions;
    if a :| Enabled(Execute(s0, actions).value, a) && !Noise(a) {
      OneMore(s0, actions, a);
      xs := RunsExtend(s0, actions + [a]);
    }
  }

  /** Every run extends to one that has finished everything, if no accepted rename of the log takes a
      raw path to itself, and otherwise to one in which the applier waits for its own lock. */
  lemma EveryRunEnds(s0: State, actions: seq<Action>) returns (xs: seq<Action>)
    requires Initial(s0) && ValidDisk(s0.disk) && Execute(s0, actions).Some?
    ensures actions <= xs && Execute(s0, xs).Some?
    ensures if forall k :: 0 <= k < |s0.log| ==> !SelfRename(s0.log[k]) then Finished(Execute(s0, xs).value)
            else SelfLocked(Execute(s0, xs).value)
  {
    xs := RunsExtend(s0, actions);
    MaximalRunsFinish(s0, xs);
  }

  /** A log with an accepted rename of a raw path to itself has a run to a state from which the applier
      never moves again. */
  lemma SelfRenameStopsApplier(s0: State, k: nat) returns (xs: seq<Action>)
    requires Initial(s0) && ValidDisk(s0.disk) && k < |s0.log| && SelfRename(s0.log[k])
    ensures Execute(s0, xs).Some? && SelfLocked(Execute(s0, xs).value)
    ensures forall more :: Execute(s0, xs + more).Some? ==>
              var s, s' := Execute(s0, xs).value, Execute(s0, xs + more).value;
              s'.applied == s.applied && s'.pc.Taking? && s'.pc.held == 1 && s'.statuses == s.statuses
  {
    xs := EveryRunEnds(s0, []);
    forall more | Execute(s0, xs + more).Some?
      ensures var s, s' := Execute(s0, xs).value, Execute(s0, xs + more).value;
              s'.applied == s.applied && s'.pc.Taking? && s'.pc.held == 1 && s'.statuses == s.statuses
    {
      SelfLockIsForever(s0, xs, more);
    }
  }
}
