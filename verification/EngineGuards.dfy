/**
  Which commands wait for which readers, by command and raw path: what a reader inside `read_file` keeps
  out, and what the applier waits for between fetching a command and its system call.
 */
module EngineGuards {
  import opened Paths
  import opened Commands
  import opened DiskModel
  import opened Locks
  import opened Engine
  import opened EngineLocks
  import opened EngineEffects

  /** The reader is past its lock on the raw path and has not dropped it. */
  predicate Inside(r: Reader, p: string)
  {
    r.path == p && (r.pc.Opening? || r.pc.Statting? || r.pc.Reading? || r.pc.Unlocking?)
  }

  predicate SomeoneInside(s: State, p: string)
  {
    AnyInside(s.readers, p)
  }

  predicate AnyInside(rs: seq<Reader>, p: string)
  {
    exists i :: 0 <= i < |rs| && Inside(rs[i], p)
  }

  /** The command passes validation. */
  predicate Passes(c: Command)
  {
    Accepted(c.path) && (c.kind.RenameEntry? ==> Accepted(c.newPath))
  }

  /** A create, write, append or delete of a file. */
  predicate OnFile(c: Command)
  {
    c.kind.CreateFile? || c.kind.WriteFile? || c.kind.AppendFile? || c.kind.DeleteFile?
  }

  /** The command is on the raw path. */
  predicate Touches(c: Command, p: string)
  {
    (OnFile(c) && c.path == p) || (c.kind.RenameEntry? && (c.path == p || c.newPath == p))
  }

  lemma {:induction false} GuardsAreReaders(rs: seq<Reader>, p: string)
    ensures p in ReadGuards(rs) <==> AnyInside(rs, p)
  {
    if rs != [] {
      var before, last := rs[..|rs| - 1], rs[|rs| - 1];
      GuardsAreReaders(before, p);
      LastGuardCounts(rs, p);
      assert p in GuardOf(last) <==> Inside(last, p);
      OneMoreReader(before, last, p);
      assert rs == before + [last];
    }
  }

  lemma OneMoreReader(rs: seq<Reader>, r: Reader, p: string)
    ensures AnyInside(rs + [r], p) <==> AnyInside(rs, p) || Inside(r, p)
  {
    if AnyInside(rs, p) {
      var i :| 0 <= i < |rs| && Inside(rs[i], p);
      assert Inside((rs + [r])[i], p);
    }
    if Inside(r, p) {
      assert Inside((rs + [r])[|rs|], p);
    }
  }

  /** Mutual exclusion, by command: while a reader is inside on a raw path, no create, write, append or
      delete of a file under that raw path makes its system call or writes a byte, nor does a rename from it
      or to it. */
  lemma ReaderKeepsOut(s0: State, actions: seq<Action>, i: nat)
    requires Initial(s0) && ValidDisk(s0.disk) && Execute(s0, actions).Some?
    ensures var s := Execute(s0, actions).value;
            && i < |s.readers| && Inside(s.readers[i], s.readers[i].path) && s.applied < |s.log|
            && Passes(s.log[s.applied]) && Touches(s.log[s.applied], s.readers[i].path) ==>
              !Enabled(s, Issue) && forall n :: !Enabled(s, WriteSome(n))
  {
    RunsAreGood(s0, actions);
    var s := Execute(s0, actions).value;
    if i < |s.readers| && Inside(s.readers[i], s.readers[i].path) && s.applied < |s.log|
       && Passes(s.log[s.applied]) && Touches(s.log[s.applied], s.readers[i].path) && !s.pc.Fetching?
    {
      NotAtWork(s, s.readers[i].path);
    }
  }

  lemma NotAtWork(s: State, p: string)
    requires Sound(s) && Busy(s) && SomeoneInside(s, p) && Passes(Current(s)) && Touches(Current(s), p)
    ensures !s.pc.Calling? && !s.pc.Writing?
  {
    GuardsAreReaders(s.readers, p);
    assert RepresentsAt(s.table, ReadGuards(s.readers), multiset(WriteGuards(s)), p);
    assert p in LockPlan(Current(s));
  }

  /* ---------- What the applier waits for ---------- */

  /** Between commands the table holds the readers' locks only. */
  lemma FreeBetweenCommands(s: State, p: string)
    requires Sound(s) && s.pc.Fetching?
    ensures CanWrite(s.table, p) <==> !SomeoneInside(s, p)
  {
    GuardsAreReaders(s.readers, p);
    AdmissionIsExact(s.table, ReadGuards(s.readers), multiset(WriteGuards(s)), p);
  }

  /** Directory commands take no lock, and neither does what validation refuses. */
  ghost predicate GoesAhead(s: State)
  {
    Enabled(s, Fetch) && Enabled(Do(s, Fetch), Issue)
  }

  /** A command on one file tries for its lock once; it gets it exactly if no reader is inside. */
  ghost predicate WaitsFor(s: State, p: string)
  {
    && Enabled(s, Fetch)
    && var s1 := Do(s, Fetch);
       && !Enabled(s1, Issue) && Enabled(s1, TryWrite)
       && (Enabled(Do(s1, TryWrite), Issue) <==> !SomeoneInside(s, p))
  }

  /** A rename tries for the old path and then for the new one; once it has the first, readers of the old
      path have to wait, also while it waits for the second. */
  ghost predicate WaitsForBoth(s: State, o: string, n: string)
  {
    && Enabled(s, Fetch)
    && var s1 := Do(s, Fetch);
       && !Enabled(s1, Issue) && Enabled(s1, TryWrite)
       && var s2 := Do(s1, TryWrite);
          && !Enabled(s2, Issue)
          && (Enabled(s2, TryWrite) <==> !SomeoneInside(s, o))
          && (Enabled(s2, TryWrite) ==>
                var s3 := Do(s2, TryWrite);
                && !CanRead(s2.table, o) && !CanRead(s3.table, o)
                && (Enabled(s3, Issue) <==> !SomeoneInside(s, n)))
  }

  /** Locks taken, exactly: from every reachable state in which the applier is about to fetch a command,
      left alone by the others. */
  lemma ApplierWaitsExactly(s0: State, actions: seq<Action>)
    requires Initial(s0) && ValidDisk(s0.disk) && Execute(s0, actions).Some?
    requires var s := Execute(s0, actions).value; s.pc.Fetching? && s.applied < |s.log|
    ensures var s := Execute(s0, actions).value;
            var c := s.log[s.applied];
            && (Passes(c) && OnFile(c) ==> WaitsFor(s, c.path))
            && (Passes(c) && c.kind.RenameEntry? && c.path != c.newPath ==> WaitsForBoth(s, c.path, c.newPath))
            && (!Passes(c) || (!OnFile(c) && !c.kind.RenameEntry?) ==> GoesAhead(s))
  {
    RunsAreGood(s0, actions);
    var s := Execute(s0, actions).value;
    var c := s.log[s.applied];
    FreeBetweenCommands(s, c.path);
    FreeBetweenCommands(s, c.newPath);
    PlanByKind(c);
    if Passes(c) && OnFile(c) {
      FileWaits(s);
    } else if !Passes(c) || !c.kind.RenameEntry? {
      OthersGoAhead(s);
    } else if c.path != c.newPath {
      RenameWaits(s);
    }
  }

  lemma PlanByKind(c: Command)
    ensures LockPlan(c) == if Passes(c) && OnFile(c) then [c.path]
                           else if Passes(c) && c.kind.RenameEntry? then [c.path, c.newPath]
                           else []
  {
  }

  lemma OthersGoAhead(s: State)
    requires Enabled(s, Fetch) && LockPlan(Current(s)) == []
    ensures GoesAhead(s)
  {
  }

  lemma FileWaits(s: State)
    requires Enabled(s, Fetch) && LockPlan(Current(s)) == [Current(s).path]
    requires CanWrite(s.table, Current(s).path) <==> !SomeoneInside(s, Current(s).path)
    ensures WaitsFor(s, Current(s).path)
  {
  }

  lemma RenameWaits(s: State)
    requires Enabled(s, Fetch) && LockPlan(Current(s)) == [Current(s).path, Current(s).newPath]
    requires Current(s).path != Current(s).newPath
    requires CanWrite(s.table, Current(s).path) <==> !SomeoneInside(s, Current(s).path)
    requires CanWrite(s.table, Current(s).newPath) <==> !SomeoneInside(s, Current(s).newPath)
    ensures WaitsForBoth(s, Current(s).path, Current(s).newPath)
  {
  }
}
