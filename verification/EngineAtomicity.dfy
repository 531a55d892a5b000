/**
  Reads are atomic: a `read_file` that runs step by step beside the applier answers as if it had
  run at once, after some whole number of commands.

  That needs a condition, because locks are per raw path and descriptors outlive names: no write of
  the log may reach, under another lock key, a file that a reader has open, be it where the reader
  found it or where renames have carried it.  `EngineTorn` has a torn read for every breach.
 */
module EngineAtomicity {
  import opened Basics
  import opened Paths
  import opened FileTree
  import opened Commands
  import opened DiskModel
  import opened Locks
  import opened Engine
  import opened EngineLocks
  import opened EngineEffects
  import opened Carrying

  /** No write of the log can reach the open file of a reader of `p` past the reader's lock. */
  ghost predicate NoClash(s: State, p: string)
  {
    forall k :: 0 <= k < |s.log| && Writes(s.log[k].kind) ==> !Clash(Shifts(s.origin, s.log), p, s.log[k].path)
  }

  /** Canonical paths, and no rename of a directory above the path being read, are enough.  In particular
      renames that move files, and not directories, are harmless. */
  lemma CanonicalPathsSuffice(s: State, p: string)
    requires Canonical(p)
    requires forall k, key :: 0 <= k < |s.log| && key in LockPlan(s.log[k]) ==> Canonical(key)
    requires forall k :: 0 <= k < |s.log| && s.log[k].kind.RenameEntry? ==> !MovesAbove(s, k, p)
    ensures NoClash(s, p)
  {
    forall k | 0 <= k < |s.log| && Writes(s.log[k].kind) ensures !Clash(Shifts(s.origin, s.log), p, s.log[k].path) {
      NoClashWithin(s, p, s.log[k]);
    }
  }

  /** Entry `k` renames what is then a directory above the path `p`. */
  ghost predicate MovesAbove(s: State, k: nat, p: string)
    requires k < |s.log|
  {
    IsDir(TreeAt(s, k), TargetOf(s.log[k].path).path) && TargetOf(s.log[k].path).path < TargetOf(p).path
  }

  lemma NoClashWithin(s: State, p: string, c: Command)
    requires Canonical(p) && (Accepts(c) ==> Canonical(c.path)) && Writes(c.kind)
    requires forall k, key :: 0 <= k < |s.log| && key in LockPlan(s.log[k]) ==> Canonical(key)
    requires forall k :: 0 <= k < |s.log| && s.log[k].kind.RenameEntry? ==> !MovesAbove(s, k, p)
    ensures !Clash(Shifts(s.origin, s.log), p, c.path)
  {
    var shifts := Shifts(s.origin, s.log);
    RenamesStayAway(s, p);
    if Clash(shifts, p, c.path) {
      StillThere(shifts, p, TargetOf(c.path).path);
      CanonicalTargets(p, c.path);
    }
  }

  lemma RenamesStayAway(s: State, p: string)
    requires Canonical(p)
    requires forall k, key :: 0 <= k < |s.log| && key in LockPlan(s.log[k]) ==> Canonical(key)
    requires forall k :: 0 <= k < |s.log| && s.log[k].kind.RenameEntry? ==> !MovesAbove(s, k, p)
    ensures forall m :: m in Shifts(s.origin, s.log) ==> !Carries(m, p, TargetOf(p).path)
  {
    forall m | m in Shifts(s.origin, s.log) ensures !Carries(m, p, TargetOf(p).path) {
      var k :| 0 <= k < |s.log| && s.log[k].kind.RenameEntry? && m == ShiftOf(Run(s.origin, s.log[..k]), s.log[k]);
      assert !MovesAbove(s, k, p) && TreeAt(s, k) == Run(s.origin, s.log[..k]);
      assert Accepts(s.log[k]) ==> s.log[k].path in LockPlan(s.log[k]);
      RenameStaysAway(Run(s.origin, s.log[..k]), s.log[k], p, m);
    }
  }

  lemma StillThere(shifts: set<Shift>, p: string, pos: Path)
    requires Reaches(shifts, p, pos) && forall m :: m in shifts ==> !Carries(m, p, TargetOf(p).path)
    ensures pos == TargetOf(p).path
  {
    var chain :| Among(chain, shifts) && Place(p, chain) == Some(pos);
    StaysPut(shifts, p, chain);
  }

  lemma RenameStaysAway(t: Tree<Bytes>, c: Command, p: string, m: Shift)
    requires Canonical(p) && c.kind.RenameEntry? && m == ShiftOf(t, c)
    requires Accepts(c) ==> Canonical(c.path)
    requires !(IsDir(t, TargetOf(c.path).path) && TargetOf(c.path).path < TargetOf(p).path)
    ensures !Carries(m, p, TargetOf(p).path)
  {
    var o := TargetOf(c.path).path;
    if Accepts(c) {
      CanonicalTargets(p, c.path);
      assert c.path == p || o != TargetOf(p).path;
    } else {
      assert !(Accepted(m.src) && Accepted(m.dst));
    }
  }

  /* ---------- What a reader knows ---------- */

  /** The open file holds what the path named after `at` commands, and is where renames may have
      carried it, if it has a name at all. */
  ghost predicate HoldsCopy(s: State, path: string, at: nat, inode: Inode)
  {
    var g := TargetOf(path);
    && Accepted(path) && !g.dot && inode < |s.disk.data|
    && IsFile(TreeAt(s, at), g.path) && TreeAt(s, at)[g.path].f == s.disk.data[inode]
    && Located(s, path, inode)
  }

  ghost predicate Located(s: State, path: string, inode: Inode)
  {
    forall q :: IsFile(s.disk.tree, q) && s.disk.tree[q].f == inode ==> Reaches(Shifts(s.origin, s.log), path, q)
  }

  ghost predicate ReaderRight(s: State, r: Reader)
  {
    match r.pc
    case NotCalled => true
    case Locking(since, _) => Accepted(r.path) && since <= s.applied
    case Opening(since) => Accepted(r.path) && since <= s.applied
    case Statting(since, at, inode) => since <= at <= Started(s) && HoldsCopy(s, r.path, at, inode)
    case Reading(since, at, inode, size, got) =>
      && since <= at <= Started(s) && HoldsCopy(s, r.path, at, inode)
      && size == |Content(s.disk, inode)| <= SIZE_LIMIT && got <= Content(s.disk, inode)
    case Unlocking(since, at, result) =>
      since <= at <= Started(s) && result == ReadOf(TreeAt(s, at), r.path)
    case Returned(since, at, until, result) =>
      since <= at <= until <= Started(s) && result == ReadOf(TreeAt(s, at), r.path)
  }

  /** What every step keeps about reader `i`, whatever the other readers are. */
  ghost predicate Atomic(s: State, i: nat)
  {
    i < |s.readers| && Good(s) && NoClash(s, s.readers[i].path) && ReaderRight(s, s.readers[i])
  }

  /* ---------- Mutual exclusion ---------- */

  /** While a reader holds its guard, the applier at work holds other keys, all different. */
  lemma GuardsExclude(s: State, i: nat, key: string)
    requires Sound(s) && i < |s.readers| && HoldsGuard(s.readers[i])
    requires Busy(s) && (s.pc.Calling? || s.pc.Writing?)
    requires key in LockPlan(Current(s))
    ensures key != s.readers[i].path
  {
    var p := s.readers[i].path;
    GuardsUpdated(s.readers, i, s.readers[i]);
    assert p in ReadGuards(s.readers);
    assert WriteGuards(s) == LockPlan(Current(s));
    assert RepresentsAt(s.table, ReadGuards(s.readers), multiset(WriteGuards(s)), p);
    assert key in multiset(WriteGuards(s));
  }

  lemma RenameKeysDiffer(s: State)
    requires Sound(s) && Busy(s) && s.pc.Calling? && Current(s).kind.RenameEntry? && Accepts(Current(s))
    ensures Current(s).path != Current(s).newPath
  {
    var c := Current(s);
    assert WriteGuards(s) == [c.path, c.newPath];
    assert RepresentsAt(s.table, ReadGuards(s.readers), multiset(WriteGuards(s)), c.path);
    assert multiset([c.path, c.newPath]) == multiset{c.path, c.newPath};
  }

  /* ---------- Where a system call leaves an open file ---------- */

  /** Every call but a rename leaves a named inode where it is or without a name. */
  lemma EditKeepsPlace(d: Disk, c: Command, inode: Inode, q: Path)
    requires ValidDisk(d) && !c.kind.RenameEntry? && inode < |d.data|
    requires IsFile(DiskCall(d, c).tree, q) && DiskCall(d, c).tree[q].f == inode
    ensures IsFile(d.tree, q) && d.tree[q].f == inode
  {
    CallIsEdit(d.tree, c, |d.data|);
  }

  /** A rename leaves it there, or carries it. */
  lemma RenameCarries(d: Disk, c: Command, p: string, inode: Inode, q: Path) returns (from: Path)
    requires ValidDisk(d) && c.kind.RenameEntry? && Accepts(c)
    requires c.path != p && c.newPath != p && c.path != c.newPath
    requires IsFile(DiskCall(d, c).tree, q) && DiskCall(d, c).tree[q].f == inode
    ensures IsFile(d.tree, from) && d.tree[from].f == inode
    ensures from == q || (Carries(ShiftOf(d.tree, c), p, from) && q == Carried(ShiftOf(d.tree, c), from))
  {
    var o, n := TargetOf(c.path), TargetOf(c.newPath);
    RenameCall(d, c);
    RenameIsMove(d.tree, o, n);
    from := q;
    if Renames(d.tree, o, n) {
      from := CameFrom(d.tree, o, n, q);
      if from != q {
        FileIsCarried(d.tree, c, p, from);
      }
    }
  }

  lemma CameFrom(t: Tree<Inode>, o: Target, n: Target, q: Path) returns (from: Path)
    requires WellFormed(t) && Renames(t, o, n) && q in Move(t, o.path, n.path)
    ensures from in t && t[from] == Move(t, o.path, n.path)[q]
    ensures from == q || (o.path <= from && q == n.path + from[|o.path|..])
  {
    RenameReachesMove(t, o, n);
    MoveOrigin(t, o.path, n.path, q);
    from := Origin(o.path, n.path, q);
  }

  /** A file at or below what a rename moves is carried. */
  lemma FileIsCarried(t: Tree<Inode>, c: Command, p: string, from: Path)
    requires WellFormed(t) && IsFile(t, from) && TargetOf(c.path).path <= from && Accepts(c) && c.kind.RenameEntry?
    requires c.path != p && c.newPath != p && c.path != c.newPath && Renames(t, TargetOf(c.path), TargetOf(c.newPath))
    ensures Carries(ShiftOf(t, c), p, from)
  {
    PathsApart(t, TargetOf(c.path), TargetOf(c.newPath));
    DirOrFileItself(t, TargetOf(c.path).path, from);
  }

  lemma PathsApart(t: Tree<Inode>, o: Target, n: Target)
    requires WellFormed(t) && Renames(t, o, n)
    ensures !o.dot && !n.dot && !(o.path <= n.path) && !(n.path <= o.path)
  {
    RenameReachesMove(t, o, n);
  }

  lemma DirOrFileItself(t: Tree<Inode>, o: Path, from: Path)
    requires WellFormed(t) && IsFile(t, from) && o <= from
    ensures if IsDir(t, o) then o < from else o == from
  {
    if IsDir(t, o) {
      assert o != from;
    } else {
      NothingBelow(t, o);
    }
  }

  /** A call changes the contents of an inode only by truncating the file that a write names. */
  lemma OnlyWritesTruncate(d: Disk, c: Command, inode: Inode)
    requires ValidDisk(d) && inode < |d.data|
    ensures inode < |DiskCall(d, c).data|
    ensures DiskCall(d, c).data[inode] != d.data[inode] ==>
              && c.kind.WriteFile? && DiskErr(d, c).None? && !TargetOf(c.path).dot
              && IsFile(d.tree, TargetOf(c.path).path) && d.tree[TargetOf(c.path).path].f == inode
  {
    if c.kind.WriteFile? && DiskErr(d, c).None? {
      assert Call(d.tree, c, |d.data|) == OpenWrite(d.tree, TargetOf(c.path), |d.data|);
    }
  }

  /** A write that a command of the log makes does not reach a guarded reader's open file. */
  lemma WriteMisses(s: State, i: nat, inode: Inode)
    requires Sound(s) && i < |s.readers| && NoClash(s, s.readers[i].path) && HoldsGuard(s.readers[i])
    requires Busy(s) && (s.pc.Calling? || s.pc.Writing?) && Accepts(Current(s)) && Writes(Current(s).kind)
    requires Accepted(s.readers[i].path) && !TargetOf(s.readers[i].path).dot && Located(s, s.readers[i].path, inode)
    requires !TargetOf(Current(s).path).dot && IsFile(s.disk.tree, TargetOf(Current(s).path).path)
    ensures s.disk.tree[TargetOf(Current(s).path).path].f != inode
  {
    var c := Current(s);
    assert c.path in LockPlan(c);
    GuardsExclude(s, i, c.path);
    assert !Clash(Shifts(s.origin, s.log), s.readers[i].path, s.log[s.applied].path);
  }

  /** What a guarded reader has open survives the applier's next system call. */
  lemma IssueKeepsCopy(s: State, i: nat, at: nat, inode: Inode)
    requires Atomic(s, i) && Enabled(s, Issue) && HoldsGuard(s.readers[i])
    requires HoldsCopy(s, s.readers[i].path, at, inode)
    ensures HoldsCopy(DoIssue(s), s.readers[i].path, at, inode)
    ensures Content(DoIssue(s).disk, inode) == Content(s.disk, inode)
  {
    var c := Current(s);
    if Accepts(c) {
      OnlyWritesTruncate(s.disk, c, inode);
      if DiskCall(s.disk, c).data[inode] != s.disk.data[inode] {
        WriteMisses(s, i, inode);
      }
      IssueKeepsPlace(s, i, inode);
    }
  }

  lemma IssueKeepsPlace(s: State, i: nat, inode: Inode)
    requires Sound(s) && EffectsRight(s) && Enabled(s, Issue) && i < |s.readers| && HoldsGuard(s.readers[i])
    requires Accepts(Current(s)) && inode < |s.disk.data| && Located(s, s.readers[i].path, inode)
    ensures Located(DoIssue(s), s.readers[i].path, inode)
  {
    var c, d', shifts := Current(s), DiskCall(s.disk, Current(s)), Shifts(s.origin, s.log);
    forall q | IsFile(d'.tree, q) && d'.tree[q].f == inode ensures Reaches(shifts, s.readers[i].path, q) {
      if c.kind.RenameEntry? {
        RenameKeepsPlace(s, i, inode, q);
      } else {
        EditKeepsPlace(s.disk, c, inode, q);
      }
    }
  }

  lemma RenameKeepsPlace(s: State, i: nat, inode: Inode, q: Path)
    requires Sound(s) && EffectsRight(s) && Enabled(s, Issue) && i < |s.readers| && HoldsGuard(s.readers[i])
    requires Accepts(Current(s)) && Current(s).kind.RenameEntry? && Located(s, s.readers[i].path, inode)
    requires var d' := DiskCall(s.disk, Current(s)); IsFile(d'.tree, q) && d'.tree[q].f == inode
    ensures Reaches(Shifts(s.origin, s.log), s.readers[i].path, q)
  {
    var c, p, shifts := Current(s), s.readers[i].path, Shifts(s.origin, s.log);
    assert c.path in LockPlan(c) && c.newPath in LockPlan(c);
    GuardsExclude(s, i, c.path);
    GuardsExclude(s, i, c.newPath);
    RenameKeysDiffer(s);
    var from := RenameCarries(s.disk, c, p, inode, q);
    if from != q {
      ViewShape(s.disk);
      assert ShiftOf(s.disk.tree, c) == ShiftOf(Run(s.origin, s.log[..s.applied]), s.log[s.applied]);
      ReachesNext(shifts, p, from, ShiftOf(s.disk.tree, c));
    }
  }

  lemma WriteKeepsCopy(s: State, n: nat, i: nat, at: nat, inode: Inode)
    requires Atomic(s, i) && Enabled(s, WriteSome(n)) && HoldsGuard(s.readers[i])
    requires HoldsCopy(s, s.readers[i].path, at, inode)
    ensures HoldsCopy(DoWriteSome(s, n), s.readers[i].path, at, inode)
    ensures Content(DoWriteSome(s, n).disk, inode) == Content(s.disk, inode)
  {
    SaveLeaves(TreeAt(s, s.applied), Current(s));
    WriteMisses(s, i, inode);
    assert s.pc.inode != inode;
  }

  /* ---------- Opening ---------- */

  /** Where a guarded reader looks, the disk is the tree after `Started` commands. */
  lemma GuardedView(s: State, i: nat)
    requires Good(s) && i < |s.readers| && NoClash(s, s.readers[i].path)
    requires HoldsGuard(s.readers[i]) && Accepted(s.readers[i].path)
    ensures LooksAlike(View(s.disk), TreeAt(s, Started(s)), TargetOf(s.readers[i].path))
  {
    if s.pc.Writing? {
      var c, g := Current(s), TargetOf(s.readers[i].path);
      WrittenFileIsOther(s, i);
      ViewWhileWriting(s);
      SameShape(View(s.disk), TreeAt(s, Started(s)), TargetOf(c.path).path, g);
    } else {
      ViewBetweenWrites(s);
    }
  }

  lemma WrittenFileIsOther(s: State, i: nat)
    requires Good(s) && i < |s.readers| && NoClash(s, s.readers[i].path)
    requires HoldsGuard(s.readers[i]) && Accepted(s.readers[i].path)
    requires s.pc.Writing?
    ensures TargetOf(s.readers[i].path).dot || TargetOf(s.readers[i].path).path != TargetOf(Current(s).path).path
  {
    var c := Current(s);
    SaveLeaves(TreeAt(s, s.applied), c);
    assert c.path in LockPlan(c);
    GuardsExclude(s, i, c.path);
    ReachesStart(Shifts(s.origin, s.log), s.readers[i].path);
    assert !Clash(Shifts(s.origin, s.log), s.readers[i].path, s.log[s.applied].path);
  }

  /** A lookup finds the same in both trees. */
  ghost predicate LooksAlike(v: Tree<Bytes>, t: Tree<Bytes>, g: Target)
  {
    && (Present(v, g) <==> Present(t, g)) && Missing(v, g) == Missing(t, g)
    && (Present(v, g) ==> v[g.path] == t[g.path])
  }

  lemma ViewBetweenWrites(s: State)
    requires EffectsRight(s) && !s.pc.Writing?
    ensures View(s.disk) == TreeAt(s, Started(s))
  {
    if s.pc.Releasing? {
      GoalReached(s);
    } else {
      assert Started(s) == s.applied;
    }
  }

  lemma ViewWhileWriting(s: State)
    requires EffectsRight(s) && s.pc.Writing?
    ensures var v, t, q := View(s.disk), TreeAt(s, Started(s)), TargetOf(Current(s).path).path;
            IsFile(v, q) && IsFile(t, q) && t == v[q := t[q]]
  {
    var c, q := Current(s), TargetOf(Current(s).path).path;
    GoalReached(s);
    ViewShape(s.disk);
    SetOnce(View(s.disk), q, s.disk.data[s.pc.inode] + c.contents[s.pc.written..], Goal(s).tree);
  }

  /** Once a command has begun to take effect, the tree it leads to is the next one. */
  lemma GoalReached(s: State)
    requires Shape(s) && (s.pc.Writing? || s.pc.Releasing?)
    ensures TreeAt(s, Started(s)) == Goal(s).tree
  {
    RunNext(s.origin, s.log, s.applied);
  }

  lemma SetOnce(v: Tree<Bytes>, q: Path, x: Bytes, t: Tree<Bytes>)
    requires v[q := File(x)] == t
    ensures IsFile(t, q) && t == v[q := t[q]]
  {
  }

  /** Two trees that differ only in the contents of one file look the same elsewhere. */
  lemma SameShape(v: Tree<Bytes>, t: Tree<Bytes>, q: Path, g: Target)
    requires IsFile(v, q) && IsFile(t, q) && t == v[q := t[q]] && (g.dot || g.path != q)
    ensures LooksAlike(v, t, g)
  {
    assert forall k :: 0 <= k < |g.path| ==> (IsFile(v, g.path[..k]) <==> IsFile(t, g.path[..k]));
  }

  /** What a reader knows depends on the disk, the log and the counts only. */
  lemma SameKnowledge(s: State, i: nat, pc: ReaderPc)
    requires i < |s.readers| && ReaderRight(s, s.readers[i].(pc := pc))
    ensures ReaderRight(SetReader(s, i, pc), SetReader(s, i, pc).readers[i])
  {
    var s' := SetReader(s, i, pc);
    assert Started(s') == Started(s) && s'.disk == s.disk;
    assert forall k: nat :: TreeAt(s', k) == TreeAt(s, k);
  }

  lemma OpenIsRight(s: State, i: nat)
    requires Atomic(s, i) && Enabled(s, OpenRead(i))
    ensures ReaderRight(DoOpenRead(s, i), DoOpenRead(s, i).readers[i])
  {
    OpenShape(s, i);
    var pc := DoOpenRead(s, i).readers[i].pc;
    OpenAnswer(s, i, pc);
    SameKnowledge(s, i, pc);
  }

  lemma OpenAnswer(s: State, i: nat, pc: ReaderPc)
    requires Atomic(s, i) && Enabled(s, OpenRead(i)) && pc == DoOpenRead(s, i).readers[i].pc
    ensures ReaderRight(s, s.readers[i].(pc := pc))
  {
    var r := s.readers[i];
    assert ReaderRight(s, r);
    GuardedView(s, i);
    OpenResult(s, i, pc);
  }

  lemma OpenResult(s: State, i: nat, pc: ReaderPc)
    requires Enabled(s, OpenRead(i)) && pc == DoOpenRead(s, i).readers[i].pc && ValidDisk(s.disk)
    requires ReaderRight(s, s.readers[i])
    requires LooksAlike(View(s.disk), TreeAt(s, Started(s)), TargetOf(s.readers[i].path))
    ensures ReaderRight(s, s.readers[i].(pc := pc))
  {
    var path := s.readers[i].path;
    OpenFacts(s.disk, TreeAt(s, Started(s)), path);
    if IsFile(s.disk.tree, TargetOf(path).path) {
      JustOpened(s, path);
    }
  }

  /** A file just opened is where its path says. */
  lemma JustOpened(s: State, path: string)
    requires ValidDisk(s.disk) && IsFile(s.disk.tree, TargetOf(path).path)
    ensures Located(s, path, s.disk.tree[TargetOf(path).path].f)
  {
    ReachesStart(Shifts(s.origin, s.log), path);
  }

  /** What open(2) finds on the disk is what reading a tree that looks the same begins with. */
  lemma OpenFacts(d: Disk, t: Tree<Bytes>, path: string)
    requires Accepted(path)
    requires LooksAlike(View(d), t, TargetOf(path))
    ensures var g := TargetOf(path);
            && (!Present(d.tree, g) ==> ReadOf(t, path) == Err(CodeOf(Missing(d.tree, g))))
            && (Present(d.tree, g) && IsDir(d.tree, g.path) ==> ReadOf(t, path) == Err(IoError))
            && (Present(d.tree, g) && IsFile(d.tree, g.path) ==>
                  !g.dot && IsFile(t, g.path) && t[g.path].f == Content(d, d.tree[g.path].f))
  {
    var g := TargetOf(path);
    ViewLookup(d, g);
    if g.path in d.tree {
      assert View(d)[g.path] == NodeView(d, d.tree[g.path]);
    }
  }

  lemma StatIsRight(s: State, i: nat)
    requires Enabled(s, StatRead(i)) && ReaderRight(s, s.readers[i])
    ensures ReaderRight(DoStatRead(s, i), DoStatRead(s, i).readers[i])
  {
  }

  lemma ReadIsRight(s: State, i: nat, n: nat)
    requires Enabled(s, ReadSome(i, n)) && ReaderRight(s, s.readers[i])
    ensures ReaderRight(DoReadSome(s, i, n), DoReadSome(s, i, n).readers[i])
  {
    var pc := s.readers[i].pc;
    var b, k := Content(s.disk, pc.inode), |pc.got|;
    PrefixExtends(b, pc.got, n);
    SameKnowledge(s, i, pc.(got := pc.got + b[k..k + n]));
  }

  lemma PrefixExtends(b: Bytes, got: Bytes, n: nat)
    requires got <= b && |got| + n <= |b|
    ensures got + b[|got|..|got| + n] <= b
  {
    assert got + b[|got|..|got| + n] == b[..|got| + n];
  }

  lemma EndIsRight(s: State, i: nat)
    requires Enabled(s, ReadEnd(i)) && ReaderRight(s, s.readers[i])
    ensures ReaderRight(DoReadEnd(s, i), DoReadEnd(s, i).readers[i])
  {
    var pc := s.readers[i].pc;
    assert pc.got == Content(s.disk, pc.inode);
    SameKnowledge(s, i, Unlocking(pc.since, pc.at, Ok(pc.got)));
  }

  /* ---------- Every step ---------- */

  /** A reader that does not move keeps what it knows. */
  lemma BystanderStaysRight(s: State, a: Action, i: nat)
    requires Atomic(s, i) && Enabled(s, a)
    ensures ReaderRight(Do(s, a), s.readers[i])
  {
    var r := s.readers[i];
    assert ReaderRight(s, r);
    StepFrame(s, a);
    CountsGrow(s, a);
    if a.Issue? || a.WriteSome? {
      if r.pc.Statting? || r.pc.Reading? {
        ApplierKeepsCopy(s, a, i, r.pc.at, r.pc.inode);
      }
    } else {
      DiskUntouched(s, a);
    }
    KnowledgeStays(s, Do(s, a), r);
  }

  lemma ApplierKeepsCopy(s: State, a: Action, i: nat, at: nat, inode: Inode)
    requires Atomic(s, i) && Enabled(s, a) && (a.Issue? || a.WriteSome?) && HoldsGuard(s.readers[i])
    requires HoldsCopy(s, s.readers[i].path, at, inode)
    ensures HoldsCopy(Do(s, a), s.readers[i].path, at, inode)
    ensures Content(Do(s, a).disk, inode) == Content(s.disk, inode)
  {
    if a.Issue? {
      IssueKeepsCopy(s, i, at, inode);
    } else {
      WriteKeepsCopy(s, a.n, i, at, inode);
    }
  }

  /** What a reader knows stays right while its open file and the log do, and the counts only grow. */
  lemma KnowledgeStays(s: State, s': State, r: Reader)
    requires ReaderRight(s, r) && s'.origin == s.origin && s'.log == s.log
    requires s.applied <= s'.applied && Started(s) <= Started(s')
    requires r.pc.Statting? || r.pc.Reading? ==>
               s'.disk == s.disk
               || (&& HoldsCopy(s', r.path, r.pc.at, r.pc.inode)
                   && Content(s'.disk, r.pc.inode) == Content(s.disk, r.pc.inode))
    ensures ReaderRight(s', r)
  {
    assert forall k: nat :: TreeAt(s', k) == TreeAt(s, k);
  }

  lemma CountsGrow(s: State, a: Action)
    requires Enabled(s, a)
    ensures s.applied <= Do(s, a).applied && Started(s) <= Started(Do(s, a))
  {
    if !a.Issue? && !a.WriteSome? && !a.FinishWrite? && !a.Complete? {
      QuietFrame(s, a);
    }
  }

  lemma DiskUntouched(s: State, a: Action)
    requires Enabled(s, a) && !a.Issue? && !a.WriteSome?
    ensures Do(s, a).disk == s.disk
  {
    if !a.FinishWrite? && !a.Complete? {
      QuietFrame(s, a);
    }
  }

  lemma RousedIsRight(s: State, r: Reader)
    requires ReaderRight(s, r)
    ensures ReaderRight(s, RousedReader(r))
  {
  }

  /** The reader whose step it is. */
  lemma MoverIsRight(s: State, a: Action)
    requires ReaderStep(a) && Atomic(s, a.i) && Enabled(s, a)
    ensures a.i < |Do(s, a).readers| && ReaderRight(Do(s, a), Do(s, a).readers[a.i])
  {
    StepFrame(s, a);
    assert ReaderRight(s, s.readers[a.i]);
    if a.OpenRead? {
      OpenIsRight(s, a.i);
    } else if a.StatRead? {
      StatIsRight(s, a.i);
    } else if a.ReadSome? {
      ReadIsRight(s, a.i, a.n);
    } else if a.ReadEnd? {
      EndIsRight(s, a.i);
    } else {
      LockingIsRight(s, a);
    }
  }

  lemma LockingIsRight(s: State, a: Action)
    requires Enabled(s, a) && (a.CallRead? || a.TryRead? || a.WakeReader?) && ReaderRight(s, s.readers[a.i])
    ensures a.i < |Do(s, a).readers| && ReaderRight(Do(s, a), Do(s, a).readers[a.i])
  {
    var s' := Do(s, a);
    ReaderStepShape(s, a);
    assert forall k: nat :: TreeAt(s', k) == TreeAt(s, k);
  }

  lemma DropIsRight(s: State, a: Action, j: nat)
    requires Atomic(s, j) && Enabled(s, a) && (a.DropRead? || a.DropWrite?)
    ensures j < |Do(s, a).readers| && ReaderRight(Do(s, a), Do(s, a).readers[j])
  {
    assert ReaderRight(s, s.readers[j]);
    QuietFrame(s, a);
    var s' := Do(s, a);
    assert forall k: nat :: TreeAt(s', k) == TreeAt(s, k);
    if a.DropRead? && a.i == j {
      assert s'.readers[j].pc.Returned?;
    } else {
      assert s'.readers[j] == RousedReader(s.readers[j]);
      BystanderStaysRight(s, a, j);
      RousedIsRight(s', s.readers[j]);
    }
  }

  lemma ReaderStepIsRight(s: State, a: Action, j: nat)
    requires Atomic(s, j) && Enabled(s, a)
    ensures j < |Do(s, a).readers| && ReaderRight(Do(s, a), Do(s, a).readers[j])
  {
    if a.DropRead? || a.DropWrite? {
      DropIsRight(s, a, j);
    } else if ReaderStep(a) && a.i == j {
      MoverIsRight(s, a);
    } else {
      OnlyMoverMoves(s, a, j);
      BystanderStaysRight(s, a, j);
    }
  }

  lemma OnlyMoverMoves(s: State, a: Action, j: nat)
    requires Enabled(s, a) && j < |s.readers| && !a.DropRead? && !a.DropWrite? && !(ReaderStep(a) && a.i == j)
    ensures j < |Do(s, a).readers| && Do(s, a).readers[j] == s.readers[j]
  {
    if ReaderStep(a) {
      ReaderStepShape(s, a);
    } else if WaiterStep(a) {
      WaiterStepShape(s, a);
    }
  }

  lemma StepIsAtomic(s: State, a: Action, i: nat)
    requires Atomic(s, i) && Enabled(s, a)
    ensures Atomic(Do(s, a), i)
  {
    StepIsSound(s, a);
    StepEffects(s, a);
    StepFrame(s, a);
    ReaderStepIsRight(s, a, i);
  }

  lemma {:induction false} RunsAreAtomic(s0: State, actions: seq<Action>, i: nat)
    requires Initial(s0) && ValidDisk(s0.disk) && i < |s0.readers| && NoClash(s0, s0.readers[i].path)
    ensures Execute(s0, actions).Some? ==> Atomic(Execute(s0, actions).value, i)
    ensures Execute(s0, actions).Some? ==> Execute(s0, actions).value.readers[i].path == s0.readers[i].path
  {
    if actions == [] {
      InitialIsSound(s0);
      InitialEffects(s0);
    } else {
      var before, a := actions[..|actions| - 1], actions[|actions| - 1];
      RunsAreAtomic(s0, before, i);
      if Execute(s0, actions).Some? {
        StepIsAtomic(Execute(s0, before).value, a, i);
        StepFrame(Execute(s0, before).value, a);
      }
    }
  }

  /** Read atomicity: in every run, whatever a `read_file` of a path without a clash has returned is what
      reading the tree after `at` commands returns, where `at` lies between the number of commands complete
      when the call began and the number begun when it returned.  The other readers may read anything. */
  lemma ReadsAreAtomic(s0: State, actions: seq<Action>, i: nat)
    requires Initial(s0) && ValidDisk(s0.disk) && i < |s0.readers| && NoClash(s0, s0.readers[i].path)
    requires Execute(s0, actions).Some?
    ensures i < |Execute(s0, actions).value.readers|
    ensures var r := Execute(s0, actions).value.readers[i];
            && r.path == s0.readers[i].path
            && (r.pc.Returned? ==>
                  && r.pc.since <= r.pc.at <= r.pc.until <= |s0.log|
                  && r.pc.result == ReadOf(Run(s0.origin, s0.log[..r.pc.at]), r.path))
  {
    RunsAreAtomic(s0, actions, i);
    RunsAreGood(s0, actions);
  }
}
