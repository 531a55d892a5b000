/**
  What every command reports and does, in terms of the tree it meets: what is at the path, the directory
  it lies in, a file above it, and a last name of ".".  The system calls and their error numbers do not
  occur in these statements.
 */
module Outcomes {
  import opened Basics
  import opened Paths
  import opened FileTree
  import opened Commands

  /** The directory in which the last name is looked up is there; that of the base always is. */
  predicate Reached<F>(t: Tree<F>, g: Target)
  {
    if g.dot then g.path in t && t[g.path].Dir?
    else g.path == [] || (g.path[..|g.path| - 1] in t && t[g.path[..|g.path| - 1]].Dir?)
  }

  /** A regular file stands where the path needs a directory. */
  ghost predicate FileInTheWay<F>(t: Tree<F>, g: Target)
  {
    exists q :: InTheWay(t, g, q)
  }

  predicate InTheWay<F>(t: Tree<F>, g: Target, q: Path)
  {
    q in t && t[q].File? && (q < g.path || (g.dot && q == g.path))
  }

  /** The error for a path that leads nowhere. */
  ghost function Lost<F>(t: Tree<F>, g: Target): ErrorCode
  {
    if FileInTheWay(t, g) then NotDirectory else FileNotFound
  }

  /** Something lies below the path. */
  ghost predicate Occupied<F>(t: Tree<F>, p: Path)
  {
    exists q :: IsBelow(t, p, q)
  }

  predicate IsBelow<F>(t: Tree<F>, p: Path, q: Path)
  {
    q in t && p < q
  }

  /* ---------- The lookup of the system calls in these terms ---------- */

  lemma WaysAgree<F>(t: Tree<F>, g: Target)
    ensures Missing(t, g) == if FileInTheWay(t, g) then ENOTDIR else ENOENT
  {
    if FileAbove(t, g.path) {
      var k :| 0 <= k < |g.path| && IsFile(t, g.path[..k]);
      assert InTheWay(t, g, g.path[..k]);
    } else if g.dot && IsFile(t, g.path) {
      assert InTheWay(t, g, g.path);
    }
    if FileInTheWay(t, g) {
      var q :| InTheWay(t, g, q);
      assert q == g.path || q == g.path[..|q|];
    }
  }

  lemma Lookup<F>(t: Tree<F>, g: Target)
    requires WellFormed(t)
    ensures ParentOk(t, g) <==> Reached(t, g)
    ensures Present(t, g) ==> Reached(t, g)
    ensures Reached(t, g) && !Present(t, g) ==> CanCreate(t, g)
  {
  }

  lemma NothingInTheWay<F>(t: Tree<F>, g: Target)
    requires WellFormed(t)
    ensures g.path in t && FileInTheWay(t, g) ==> g.dot && t[g.path].File?
  {
    if g.path in t && FileInTheWay(t, g) {
      var q :| InTheWay(t, g, q);
      if q < g.path {
        assert q == g.path[..|q|];
        AncestorsAreDirs(t, g.path, |q|);
      }
    }
  }

  lemma ChildrenOccupy<F>(t: Tree<F>, p: Path)
    requires WellFormed(t)
    ensures HasChild(t, p) <==> Occupied(t, p)
  {
    if HasChild(t, p) {
      var q :| q in t && q != [] && Parent(q) == p;
      assert IsBelow(t, p, q);
    }
    if Occupied(t, p) {
      var q :| IsBelow(t, p, q);
      BelowMeansChild(t, p, q);
    }
  }

  /* ---------- Commands ---------- */

  /** Creating a file or a directory succeeds exactly if the directory for it is there, and then makes it
      unless something has that name; otherwise it says whether a file is in the way. */
  lemma CreateReports(t: Tree<Bytes>, c: Command)
    requires WellFormed(t) && (c.kind.CreateFile? || c.kind.CreateDir?) && Accepted(c.path)
    ensures var g, e := TargetOf(c.path), Exec(t, c);
            && e.status == (if Reached(t, g) then Fine else Failed(Lost(t, g)))
            && e.tree == if Reached(t, g) && g.path !in t
                         then t[g.path := if c.kind.CreateFile? then File([]) else Dir] else t
  {
    MakingReports(t, TargetOf(c.path), []);
  }

  lemma MakingReports<F>(t: Tree<F>, g: Target, empty: F)
    requires WellFormed(t)
    ensures var err := if !Reached(t, g) then Some(Missing(t, g)) else if g.path in t then Some(EEXIST) else None;
            && OpenExcl(t, g, empty) == Sys(if err.None? then t[g.path := File(empty)] else t, err)
            && Mkdir(t, g) == Sys(if err.None? then t[g.path := Dir] else t, err)
    ensures CodeOf(Missing(t, g)) == Lost(t, g) && Missing(t, g) != EEXIST
  {
    Lookup(t, g);
    WaysAgree(t, g);
  }

  /** A write or append succeeds exactly if the directory for it is there and no directory has its name. */
  lemma SaveReports(t: Tree<Bytes>, c: Command)
    requires WellFormed(t) && (c.kind.WriteFile? || c.kind.AppendFile?) && Accepted(c.path)
    ensures var g, e := TargetOf(c.path), Exec(t, c);
            var was := if g.path in t && t[g.path].File? && c.kind.AppendFile? then t[g.path].f else [];
            && e.status == (if !Reached(t, g) then Failed(Lost(t, g))
                            else if g.path in t && t[g.path].Dir? then Failed(IoError)
                            else Fine)
            && e.tree == if e.status == Fine then t[g.path := File(was + c.contents)] else t
  {
    ExecOfSave(t, c);
    SavingReports(t, TargetOf(c.path), c, Exec(t, c));
  }

  lemma ExecOfSave(t: Tree<Bytes>, c: Command)
    requires (c.kind.WriteFile? || c.kind.AppendFile?) && Accepted(c.path)
    ensures var g := TargetOf(c.path);
            var r := OpenWrite(t, g, []);
            Exec(t, c) == if r.err.None? then Outcome(Fill(r.tree, g.path, c), Fine)
                          else Outcome(r.tree, Failed(CodeOf(r.err.value)))
  {
  }

  lemma SavingReports(t: Tree<Bytes>, g: Target, c: Command, e: Outcome)
    requires WellFormed(t)
    requires var r := OpenWrite(t, g, []);
             e == if r.err.None? then Outcome(Fill(r.tree, g.path, c), Fine)
                  else Outcome(r.tree, Failed(CodeOf(r.err.value)))
    ensures var was := if g.path in t && t[g.path].File? && c.kind.AppendFile? then t[g.path].f else [];
            && e.status == (if !Reached(t, g) then Failed(Lost(t, g))
                            else if g.path in t && t[g.path].Dir? then Failed(IoError)
                            else Fine)
            && e.tree == if e.status == Fine then t[g.path := File(was + c.contents)] else t
  {
    OpenReports(t, g, []);
    if OpenWrite(t, g, []).err.None? {
      FillReports(t, g.path, c);
    }
  }

  lemma FillReports(t: Tree<Bytes>, p: Path, c: Command)
    requires p in t ==> t[p].File?
    ensures var was := if p in t && c.kind.AppendFile? then t[p].f else [];
            Fill(if p in t then t else t[p := File([])], p, c) == t[p := File(was + c.contents)]
  {
    UpdatedTwice(t, p, File([]), File([] + c.contents));
    assert [] + c.contents == c.contents;
  }

  lemma OpenReports<F>(t: Tree<F>, g: Target, empty: F)
    requires WellFormed(t)
    ensures OpenWrite(t, g, empty) ==
            if !Reached(t, g) then Sys(t, Some(Missing(t, g)))
            else if g.path !in t then Sys(t[g.path := File(empty)], None)
            else Sys(t, if t[g.path].Dir? then Some(EISDIR) else None)
    ensures CodeOf(Missing(t, g)) == Lost(t, g)
  {
    Lookup(t, g);
    WaysAgree(t, g);
  }

  /** Deleting a file succeeds also if there is none, but not if a directory has the name or a file is in
      the way. */
  lemma DeleteFileReports(t: Tree<Bytes>, c: Command)
    requires WellFormed(t) && c.kind.DeleteFile? && Accepted(c.path)
    ensures var g, e := TargetOf(c.path), Exec(t, c);
            && e.status == (if g.path in t && t[g.path].Dir? then Failed(IoError)
                            else if FileInTheWay(t, g) then Failed(NotDirectory)
                            else Fine)
            && e.tree == if e.status == Fine then t - {g.path} else t
  {
    UnlinkReports(t, TargetOf(c.path));
  }

  lemma UnlinkReports<F>(t: Tree<F>, g: Target)
    requires WellFormed(t)
    ensures Unlink(t, g) ==
            if g.path in t && t[g.path].Dir? then Sys(t, Some(EISDIR))
            else if FileInTheWay(t, g) then Sys(t, Some(ENOTDIR))
            else if g.path in t then Sys(t - {g.path}, None)
            else Sys(t, Some(ENOENT))
    ensures g.path !in t ==> t - {g.path} == t
  {
    WaysAgree(t, g);
    NothingInTheWay(t, g);
    if g.path in t && g.dot && t[g.path].File? {
      assert InTheWay(t, g, g.path);
    }
  }

  /** Deleting a directory succeeds also if there is none; one that is not empty stays, and so does one
      that is named through a last ".". */
  lemma DeleteDirReports(t: Tree<Bytes>, c: Command)
    requires WellFormed(t) && c.kind.DeleteDir? && Accepted(c.path)
    ensures var g, e := TargetOf(c.path), Exec(t, c);
            && e.status == (if g.path in t && t[g.path].Dir?
                            then if g.dot || Occupied(t, g.path) then Failed(IoError) else Fine
                            else if g.path in t || FileInTheWay(t, g) then Failed(NotDirectory)
                            else Fine)
            && e.tree == if e.status == Fine then t - {g.path} else t
  {
    RmdirReports(t, TargetOf(c.path));
  }

  lemma RmdirReports<F>(t: Tree<F>, g: Target)
    requires WellFormed(t)
    ensures var r := Rmdir(t, g);
            if g.path in t && t[g.path].Dir?
            then if g.dot || Occupied(t, g.path) then r == Sys(t, Some(if g.dot then EINVAL else ENOTEMPTY))
                 else r == Sys(t - {g.path}, None)
            else r == Sys(t, Some(if g.path in t || FileInTheWay(t, g) then ENOTDIR else ENOENT))
    ensures g.path !in t ==> t - {g.path} == t
  {
    Lookup(t, g);
    WaysAgree(t, g);
    ChildrenOccupy(t, g.path);
  }

  /** The new name is free, or holds a file that a file may replace, or an empty directory that a
      directory may. */
  ghost predicate HasRoom<F>(t: Tree<F>, o: Path, n: Path)
  {
    o in t && (n in t ==> (t[o].File? <==> t[n].File?) && !Occupied(t, n))
  }

  /** When a rename succeeds, and what it reports otherwise.  It leaves the tree alone unless it succeeds
      between different names; then `Commands.RenameMovesSubtree` says what it does. */
  lemma RenameReports(t: Tree<Bytes>, c: Command)
    requires WellFormed(t) && c.kind.RenameEntry? && Accepted(c.path) && Accepted(c.newPath)
    ensures var o, n, e := TargetOf(c.path), TargetOf(c.newPath), Exec(t, c);
            && (e.status == Fine <==>
                  && !o.dot && !n.dot && o.path in t && Reached(t, n)
                  && (o.path == n.path || (!(o.path <= n.path) && HasRoom(t, o.path, n.path))))
            && (e.status != Fine ==> e.status == Failed(RenameError(t, o, n)))
            && (e.status != Fine || o.path == n.path ==> e.tree == t)
  {
    CallOfRename(t, c, []);
    RenameSysReports(t, TargetOf(c.path), TargetOf(c.newPath));
    FailedCallsKeepTree(t, TargetOf(c.path), TargetOf(c.newPath), []);
  }

  lemma RenameSysReports<F>(t: Tree<F>, o: Target, n: Target)
    requires WellFormed(t)
    ensures var r := Rename(t, o, n);
            && (r.err.None? <==>
                  && !o.dot && !n.dot && o.path in t && Reached(t, n)
                  && (o.path == n.path || (!(o.path <= n.path) && HasRoom(t, o.path, n.path))))
            && (r.err.Some? ==> CodeOf(r.err.value) == RenameError(t, o, n))
            && (o.path == n.path ==> r.tree == t)
  {
    Lookup(t, o);
    Lookup(t, n);
    WaysAgree(t, o);
    WaysAgree(t, n);
    if o.path in t {
      RoomOrObstacle(t, o.path, n.path);
    }
    RenameCases(t, o, n);
  }

  lemma RenameCases<F>(t: Tree<F>, o: Target, n: Target)
    requires (ParentOk(t, o) <==> Reached(t, o)) && (ParentOk(t, n) <==> Reached(t, n))
    requires o.path in t && !o.dot ==> Reached(t, o)
    requires CodeOf(Missing(t, o)) == Lost(t, o) && CodeOf(Missing(t, n)) == Lost(t, n)
    requires o.path in t ==> RoomDecides(t, o.path, n.path)
    ensures var r := Rename(t, o, n);
            && (r.err.None? <==>
                  && !o.dot && !n.dot && o.path in t && Reached(t, n)
                  && (o.path == n.path || (!(o.path <= n.path) && HasRoom(t, o.path, n.path))))
            && (r.err.Some? ==> CodeOf(r.err.value) == RenameError(t, o, n))
            && (o.path == n.path ==> r.tree == t)
  {
  }

  ghost predicate RoomDecides<F>(t: Tree<F>, o: Path, n: Path)
    requires o in t
  {
    var x := Obstacle(t, o, n);
    && (x.None? <==> HasRoom(t, o, n))
    && (x.Some? ==> CodeOf(x.value) == if t[o].Dir? && t[n].File? then NotDirectory else IoError)
  }

  lemma RoomOrObstacle<F>(t: Tree<F>, o: Path, n: Path)
    requires WellFormed(t) && o in t
    ensures RoomDecides(t, o, n)
  {
    ChildrenOccupy(t, n);
    FilesHoldNothing(t, n);
  }

  /** Nothing lies below a file. */
  lemma FilesHoldNothing<F>(t: Tree<F>, n: Path)
    requires WellFormed(t)
    ensures n in t && t[n].File? ==> !Occupied(t, n)
  {
    if n in t && t[n].File? {
      NothingBelow(t, n);
    }
  }

  ghost function RenameError<F>(t: Tree<F>, o: Target, n: Target): ErrorCode
  {
    if !Reached(t, o) then Lost(t, o)
    else if !Reached(t, n) then Lost(t, n)
    else if o.dot || n.dot then IoError
    else if o.path !in t then FileNotFound
    else if !(o.path <= n.path) && t[o.path].Dir? && n.path in t && t[n.path].File? then NotDirectory
    else IoError
  }

  /** Everything else touches nothing: a path that is refused, a read in the log, a type that no command
      has. */
  lemma OthersReport(t: Tree<Bytes>, c: Command)
    ensures var e := Exec(t, c);
            match c.kind
            case ReadFile => e == Outcome(t, Fine)
            case ListDir => e == Outcome(t, Fine)
            case Unknown(_) => e == Outcome(t, Failed(InvalidCommand))
            case _ => !Accepted(c.path) || (c.kind.RenameEntry? && !Accepted(c.newPath)) ==>
                        e == Outcome(t, Failed(InvalidPath))
  {
  }

  /** Reading returns the bytes of a file that is there and within a hundred mebibytes. */
  lemma ReadReports(t: Tree<Bytes>, path: string)
    requires WellFormed(t)
    ensures var g := TargetOf(path);
            ReadOf(t, path) ==
            if !Accepted(path) then Err(InvalidPath)
            else if g.path !in t || (g.dot && t[g.path].File?) then Err(Lost(t, g))
            else if t[g.path].Dir? || |t[g.path].f| > 100 * 1024 * 1024 then Err(IoError)
            else Ok(t[g.path].f)
  {
    var g := TargetOf(path);
    Lookup(t, g);
    WaysAgree(t, g);
  }
}
