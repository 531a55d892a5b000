/**
  Read atomicity, exactly: for which raw paths of a read, of writes and of renames the read is atomic in
  every run, whatever the disk, the schedule, the contents, the other readers and the other commands.
 */
module EngineExact {
  import opened Basics
  import opened Paths
  import opened FileTree
  import opened Commands
  import opened DiskModel
  import opened Locks
  import opened Engine
  import opened EngineAtomicity
  import opened EngineTorn
  import opened Commutation
  import opened Carrying
  import opened Skeleton
  import opened Trails

  /** A start in which writes and renames use these raw paths only. */
  ghost predicate Admits(s0: State, writePaths: set<string>, renames: set<(string, string)>)
  {
    && Initial(s0) && ValidDisk(s0.disk)
    && (forall k :: 0 <= k < |s0.log| ==> Permits(s0.log[k], writePaths, renames))
  }

  predicate Permits(c: Command, writePaths: set<string>, renames: set<(string, string)>)
  {
    && (Writes(c.kind) ==> c.path in writePaths)
    && (c.kind.RenameEntry? ==> (c.path, c.newPath) in renames)
  }

  /** If reader `i` has returned after these actions, then some prefix of the log explains its result,
      between the commands complete at its call and those begun at its return. */
  ghost predicate ReadExplained(s0: State, actions: seq<Action>, i: nat)
  {
    var r := Execute(s0, actions);
    r.Some? && i < |r.value.readers| && r.value.readers[i].pc.Returned? ==>
      var pc := r.value.readers[i].pc;
      && pc.until <= |s0.log|
      && exists at: nat ::
           pc.since <= at <= pc.until && pc.result == ReadOf(Run(s0.origin, s0.log[..at]), r.value.readers[i].path)
  }

  /** Every read of `p` is explained, in every run with these write paths and renames. */
  ghost predicate AlwaysAtomic(p: string, writePaths: set<string>, renames: set<(string, string)>)
  {
    forall s0: State, actions: seq<Action>, i: nat ::
      Admits(s0, writePaths, renames) && i < |s0.readers| && s0.readers[i].path == p ==> ReadExplained(s0, actions, i)
  }

  /** The chain uses these renames. */
  ghost predicate Uses(chain: seq<Shift>, renames: set<(string, string)>)
  {
    forall j :: 0 <= j < |chain| ==> (chain[j].src, chain[j].dst) in renames
  }

  /** Renames of the set can take the file that `p` denotes to where `q` denotes it, past the lock of `p`. */
  ghost predicate Meet(renames: set<(string, string)>, p: string, q: string)
  {
    && Accepted(p) && Accepted(q) && p != q && !TargetOf(p).dot && !TargetOf(q).dot
    && exists chain :: Uses(chain, renames) && Place(p, chain) == Some(TargetOf(q).path)
  }

  /* ---------- No meeting, no torn read ---------- */

  lemma ShiftsAreRenames(t: Tree<Bytes>, log: seq<Command>, renames: set<(string, string)>, chain: seq<Shift>)
    requires forall k :: 0 <= k < |log| && log[k].kind.RenameEntry? ==> (log[k].path, log[k].newPath) in renames
    requires Among(chain, Shifts(t, log))
    ensures Uses(chain, renames)
  {
    forall j | 0 <= j < |chain| ensures (chain[j].src, chain[j].dst) in renames {
      assert chain[j] in Shifts(t, log);
      var k :| 0 <= k < |log| && log[k].kind.RenameEntry? && chain[j] == ShiftOf(Run(t, log[..k]), log[k]);
    }
  }

  lemma AdmittedIsClear(s0: State, p: string, writePaths: set<string>, renames: set<(string, string)>)
    requires Admits(s0, writePaths, renames)
    requires forall q :: q in writePaths ==> !Meet(renames, p, q)
    ensures NoClash(s0, p)
  {
    var shifts := Shifts(s0.origin, s0.log);
    forall k | 0 <= k < |s0.log| && Writes(s0.log[k].kind) ensures !Clash(shifts, p, s0.log[k].path) {
      var q := s0.log[k].path;
      assert Permits(s0.log[k], writePaths, renames);
      if Clash(shifts, p, q) {
        ClashMeets(s0, writePaths, renames, p, q);
      }
    }
  }

  lemma ClashMeets(s0: State, writePaths: set<string>, renames: set<(string, string)>, p: string, q: string)
    requires forall k :: 0 <= k < |s0.log| ==> Permits(s0.log[k], writePaths, renames)
    requires Clash(Shifts(s0.origin, s0.log), p, q)
    ensures Meet(renames, p, q)
  {
    var chain :| Among(chain, Shifts(s0.origin, s0.log)) && Place(p, chain) == Some(TargetOf(q).path);
    forall k | 0 <= k < |s0.log| && s0.log[k].kind.RenameEntry?
      ensures (s0.log[k].path, s0.log[k].newPath) in renames
    {
      assert Permits(s0.log[k], writePaths, renames);
    }
    ShiftsAreRenames(s0.origin, s0.log, renames, chain);
  }

  lemma ClearReadIsExplained(s0: State, actions: seq<Action>, i: nat)
    requires Initial(s0) && ValidDisk(s0.disk) && i < |s0.readers| && NoClash(s0, s0.readers[i].path)
    ensures ReadExplained(s0, actions, i)
  {
    if Execute(s0, actions).Some? {
      ReadsAreAtomic(s0, actions, i);
    }
  }

  /* ---------- A meeting tears a read ---------- */

  /** Every file holds one of these contents. */
  ghost predicate HoldsOnly(t: Tree<Bytes>, contents: set<Bytes>)
  {
    forall q :: IsFile(t, q) ==> t[q].f in contents
  }

  /** Directory commands and renames bring in no contents. */
  lemma ScriptKeepsContents(t: Tree<Bytes>, c: Command, contents: set<Bytes>)
    requires HoldsOnly(t, contents) && (c.kind.CreateDir? || c.kind.DeleteDir? || c.kind.RenameEntry?)
    ensures HoldsOnly(Exec(t, c).tree, contents)
  {
    var t', g := Exec(t, c).tree, TargetOf(c.path);
    assert t' == t || t' == Mkdir(t, g).tree || t' == Rmdir(t, g).tree || t' == Rename(t, g, TargetOf(c.newPath)).tree;
    forall q | IsFile(t', q) ensures t'[q].f in contents {
      if c.kind.RenameEntry? {
        RenameKeepsContents(t, g, TargetOf(c.newPath), q);
      } else {
        DirectoryCallBringsNoFile(t, g, q);
      }
    }
  }

  lemma RenameKeepsContents(t: Tree<Bytes>, o: Target, n: Target, q: Path)
    ensures IsFile(Rename(t, o, n).tree, q) ==> exists from :: IsFile(t, from) && t[from] == Rename(t, o, n).tree[q]
  {
    MoveAt(t, o.path, n.path, q);
    if Renames(t, o, n) {
      var from := if n.path <= q && o.path + q[|n.path|..] in t then o.path + q[|n.path|..] else q;
      assert IsFile(Rename(t, o, n).tree, q) ==> IsFile(t, from);
    }
  }

  lemma DirectoryCallBringsNoFile(t: Tree<Bytes>, g: Target, q: Path)
    ensures IsFile(Mkdir(t, g).tree, q) ==> IsFile(t, q) && t[q] == Mkdir(t, g).tree[q]
    ensures IsFile(Rmdir(t, g).tree, q) ==> IsFile(t, q) && t[q] == Rmdir(t, g).tree[q]
  {
  }

  lemma {:induction false} ScriptHoldsOnly(t: Tree<Bytes>, log: seq<Command>, p: string, chain: seq<Shift>, k: nat,
                                           contents: set<Bytes>)
    requires HoldsOnly(t, contents) && Script(log, p, chain) && k <= |log|
    ensures HoldsOnly(Run(t, log[..k]), contents)
    decreases k
  {
    if k == 0 {
      assert log[..0] == [];
    } else {
      ScriptHoldsOnly(t, log, p, chain, k - 1, contents);
      assert InScript(log[k - 1], p, chain);
      ScriptKeepsContents(Run(t, log[..k - 1]), log[k - 1], contents);
      NextHoldsOnly(t, log, k - 1, contents);
    }
  }

  lemma OverwriteHoldsOnly(t: Tree<Bytes>, c: Command, contents: set<Bytes>)
    requires HoldsOnly(t, contents) && c.kind.WriteFile? && c.contents in contents
    ensures HoldsOnly(Exec(t, c).tree, contents)
  {
    var t', p := Exec(t, c).tree, TargetOf(c.path).path;
    forall q | IsFile(t', q) ensures t'[q].f in contents {
      if q != p {
        FileCommandFrame(t, c, q);
      } else if Exec(t, c).status == Fine {
        SaveLeaves(t, c);
        assert Saved(c, Or(Get(t, p))) == c.contents;
      } else {
        FailureChangesNothing(t, c);
      }
    }
  }

  /** The script, then the overwrite. */
  lemma NothingElseIsRead(t: Tree<Bytes>, script: seq<Command>, p: string, chain: seq<Shift>, c: Command, x: Byte)
    requires HoldsOnly(t, {[]}) && Script(script, p, chain) && c.kind.WriteFile? && |c.contents| == 2
    ensures Unexplained(t, script + [c], p, Ok([x]))
  {
    var log, contents: set<Bytes> := script + [c], {[], c.contents};
    forall k | 0 <= k <= |log| ensures Ok([x]) != ReadOf(Run(t, log[..k]), p) {
      assert log[..|script|] == script;
      OverwrittenHoldsOnly(t, script, p, chain, log, contents, k);
      OnlyThatIsRead(Run(t, log[..k]), p, contents);
    }
  }

  lemma OverwrittenHoldsOnly(t: Tree<Bytes>, script: seq<Command>, p: string, chain: seq<Shift>, log: seq<Command>,
                             contents: set<Bytes>, k: nat)
    requires HoldsOnly(t, contents) && Script(script, p, chain) && k <= |log| == |script| + 1
    requires log[..|script|] == script && log[|script|].kind.WriteFile? && log[|script|].contents in contents
    ensures HoldsOnly(Run(t, log[..k]), contents)
  {
    if k <= |script| {
      assert log[..k] == script[..k];
      ScriptHoldsOnly(t, script, p, chain, k, contents);
    } else {
      assert script[..|script|] == script;
      ScriptHoldsOnly(t, script, p, chain, |script|, contents);
      LastHoldsOnly(t, log, |script|, contents);
    }
  }

  lemma LastHoldsOnly(t: Tree<Bytes>, log: seq<Command>, k: nat, contents: set<Bytes>)
    requires k < |log| && HoldsOnly(Run(t, log[..k]), contents)
    requires log[k].kind.WriteFile? && log[k].contents in contents
    ensures HoldsOnly(Run(t, log[..k + 1]), contents)
  {
    OverwriteHoldsOnly(Run(t, log[..k]), log[k], contents);
    NextHoldsOnly(t, log, k, contents);
  }

  lemma NextHoldsOnly(t: Tree<Bytes>, log: seq<Command>, k: nat, contents: set<Bytes>)
    requires k < |log| && HoldsOnly(Exec(Run(t, log[..k]), log[k]).tree, contents)
    ensures HoldsOnly(Run(t, log[..k + 1]), contents)
  {
    RunNext(t, log, k);
  }

  lemma OnlyThatIsRead(t: Tree<Bytes>, p: string, contents: set<Bytes>)
    requires HoldsOnly(t, contents)
    ensures ReadOf(t, p).Ok? ==> ReadOf(t, p).value in contents
  {
    var g := TargetOf(p);
    assert g.path in t && t[g.path].File? ==> IsFile(t, g.path);
  }

  lemma {:induction false} CallsKeepDisk(d: Disk, log: seq<Command>)
    requires ValidDisk(d)
    ensures ValidDisk(Calls(d, log))
  {
    if log != [] {
      CallsKeepDisk(d, log[..|log| - 1]);
      ViewDiskCall(Calls(d, log[..|log| - 1]), log[|log| - 1]);
    }
  }

  /** A script runs beside a reader that has `p` open. */
  lemma ScriptHappensBeside(script: seq<Command>, p: string, chain: seq<Shift>, k: nat)
    requires Script(script, p, chain) && k < |script|
    ensures HappensBeside(map[p := LockState(1, false)], script[k])
  {
    var c := script[k];
    assert InScript(c, p, chain);
    assert LockPlan(c) == if c.kind.RenameEntry? then [c.path, c.newPath] else [];
  }

  /** Reader, script, overwrite: a torn read, from a disk that holds one empty file. */
  lemma MeetingTears(p: string, q: string, chain: seq<Shift>) returns (log: seq<Command>, xs: seq<Action>)
    requires Accepted(p) && Accepted(q) && p != q && !TargetOf(p).dot && !TargetOf(q).dot
    requires Place(p, chain) == Some(TargetOf(q).path)
    ensures |log| > 0 && Script(log[..|log| - 1], p, chain) && log[|log| - 1] == OverwriteWith(q, 1, 2)
    ensures ValidDisk(OneFile(p)) && Torn(Fresh(OneFile(p), p, log), xs)
  {
    var d := OneFile(p);
    BareIsValid(TargetOf(p).path, []);
    var script := FollowsChain(d, p, chain, 0);
    log := script + [OverwriteWith(q, 1, 2)];
    assert log[..|script|] == script;
    ScriptIsUnexplained(p, q, chain, script);
    BareHolds(TargetOf(q).path, 0);
    xs := ScriptThenCutIn(d, p, q, chain, script, log);
  }

  lemma ScriptIsUnexplained(p: string, q: string, chain: seq<Shift>, script: seq<Command>)
    requires Script(script, p, chain)
    ensures Unexplained(View(OneFile(p)), script + [OverwriteWith(q, 1, 2)], p, Ok([1]))
  {
    EmptyFileOnly(OneFile(p), TargetOf(p).path);
    NothingElseIsRead(View(OneFile(p)), script, p, chain, OverwriteWith(q, 1, 2), 1);
  }

  lemma BareHolds(pos: Path, i: Inode)
    ensures IsFile(Bare(pos, i), pos) && Bare(pos, i)[pos].f == i
  {
    SkelAt(pos, i, [], 0, pos);
  }

  function OneFile(p: string): Disk
  {
    Disk(Bare(TargetOf(p).path, 0), [[]])
  }

  lemma EmptyFileOnly(d: Disk, pos: Path)
    requires d.tree == Bare(pos, 0) && d.data == [[]]
    ensures HoldsOnly(View(d), {[]})
  {
    forall q | IsFile(View(d), q) ensures View(d)[q].f in {[]} {
      SkelAt(pos, 0, [], 0, q);
    }
  }

  lemma ScriptThenCutIn(d: Disk, p: string, q: string, chain: seq<Shift>, script: seq<Command>, log: seq<Command>)
      returns (xs: seq<Action>)
    requires Named(d, p) && Accepted(q) && !TargetOf(q).dot && p != q
    requires Script(script, p, chain) && log == script + [OverwriteWith(q, 1, 2)]
    requires var t := Calls(d, script).tree; IsFile(t, TargetOf(q).path) && t[TargetOf(q).path].f == InodeOf(d, p)
    requires Unexplained(View(d), log, p, Ok([1]))
    ensures Torn(Fresh(d, p, log), xs)
  {
    forall k | 0 <= k < |script| ensures HappensBeside(map[p := LockState(1, false)], log[k]) {
      ScriptHappensBeside(script, p, chain, k);
    }
    assert log[..|script|] == script;
    CallsKeepDisk(d, script);
    xs := BesideThenOverwrite(d, p, q, 1, log, |script|);
  }

  lemma MeetingIsNotAtomic(p: string, q: string, writePaths: set<string>, renames: set<(string, string)>)
    requires q in writePaths && Meet(renames, p, q)
    ensures !AlwaysAtomic(p, writePaths, renames)
  {
    var chain :| Uses(chain, renames) && Place(p, chain) == Some(TargetOf(q).path);
    var log, xs := MeetingTears(p, q, chain);
    ScriptIsPermitted(log, p, q, chain, writePaths, renames);
    FreshIsAdmitted(OneFile(p), p, log, writePaths, renames);
    TornIsNotExplained(Fresh(OneFile(p), p, log), xs);
  }

  lemma FreshIsAdmitted(d: Disk, p: string, log: seq<Command>, writePaths: set<string>, renames: set<(string, string)>)
    requires ValidDisk(d) && forall k :: 0 <= k < |log| ==> Permits(log[k], writePaths, renames)
    ensures Admits(Fresh(d, p, log), writePaths, renames)
    ensures |Fresh(d, p, log).readers| == 1 && Fresh(d, p, log).readers[0].path == p
  {
  }

  lemma ScriptIsPermitted(log: seq<Command>, p: string, q: string, chain: seq<Shift>,
                          writePaths: set<string>, renames: set<(string, string)>)
    requires |log| > 0 && Script(log[..|log| - 1], p, chain) && log[|log| - 1] == OverwriteWith(q, 1, 2)
    requires q in writePaths && Uses(chain, renames)
    ensures forall k :: 0 <= k < |log| ==> Permits(log[k], writePaths, renames)
  {
    forall k | 0 <= k < |log| ensures Permits(log[k], writePaths, renames) {
      if k < |log| - 1 {
        assert InScript(log[..|log| - 1][k], p, chain);
      }
    }
  }

  lemma TornIsNotExplained(s0: State, xs: seq<Action>)
    requires Torn(s0, xs)
    ensures !ReadExplained(s0, xs, 0)
  {
  }

  /** Read atomicity, exactly: every read of `p` is atomic, in every run with the given write paths and
      renames and with any other readers, if and only if no renames of the set can bring the file of `p` to
      where another raw path of the writes denotes it. */
  lemma AtomicExactly(p: string, writePaths: set<string>, renames: set<(string, string)>)
    ensures AlwaysAtomic(p, writePaths, renames) <==> forall q :: q in writePaths ==> !Meet(renames, p, q)
  {
    if forall q :: q in writePaths ==> !Meet(renames, p, q) {
      forall s0: State, actions: seq<Action>, i: nat
        | Admits(s0, writePaths, renames) && i < |s0.readers| && s0.readers[i].path == p
        ensures ReadExplained(s0, actions, i)
      {
        AdmittedIsClear(s0, p, writePaths, renames);
        ClearReadIsExplained(s0, actions, i);
      }
    }
    if AlwaysAtomic(p, writePaths, renames) {
      forall q | q in writePaths ensures !Meet(renames, p, q) {
        if Meet(renames, p, q) {
          MeetingIsNotAtomic(p, q, writePaths, renames);
        }
      }
    }
  }

  /** For a set of read paths: all of them are always atomic if and only if none meets a written path. */
  lemma AtomicSetExactly(readPaths: set<string>, writePaths: set<string>, renames: set<(string, string)>)
    ensures (forall p :: p in readPaths ==> AlwaysAtomic(p, writePaths, renames))
       <==> forall p, q :: p in readPaths && q in writePaths ==> !Meet(renames, p, q)
  {
    forall p ensures AlwaysAtomic(p, writePaths, renames) <==> forall q :: q in writePaths ==> !Meet(renames, p, q) {
      AtomicExactly(p, writePaths, renames);
    }
  }

  /** Without renames: exactly if no other accepted raw path that is written denotes the file of `p`. */
  lemma AtomicWithoutRenames(p: string, writePaths: set<string>)
    ensures AlwaysAtomic(p, writePaths, {})
       <==> forall q :: q in writePaths && Accepted(p) && Accepted(q) && p != q ==>
              TargetOf(p).dot || TargetOf(p) != TargetOf(q)
  {
    AtomicExactly(p, writePaths, {});
    forall q ensures Meet({}, p, q) <==> Accepted(p) && Accepted(q) && p != q
                                         && !TargetOf(p).dot && TargetOf(p) == TargetOf(q)
    {
      MeetWithoutRenames(p, q);
    }
  }

  lemma ChainNeedsRenames(chain: seq<Shift>, renames: set<(string, string)>)
    requires Uses(chain, renames) && chain != []
    ensures renames != {}
  {
    assert (chain[0].src, chain[0].dst) in renames;
  }

  lemma MeetWithoutRenames(p: string, q: string)
    ensures Meet({}, p, q) <==> Accepted(p) && Accepted(q) && p != q && !TargetOf(p).dot && TargetOf(p) == TargetOf(q)
  {
    var none: seq<Shift> := [];
    assert Uses(none, {}) && Place(p, none) == Some(TargetOf(p).path);
    if Meet({}, p, q) {
      var chain: seq<Shift> :| Uses(chain, {}) && Place(p, chain) == Some(TargetOf(q).path);
      if chain != [] {
        ChainNeedsRenames(chain, {});
      }
    }
  }
}
