/**
  The replicated commands (commands/diarkis/commands.h) and their atomic meaning on a tree of
  files: what `StateMachine::apply_command` and the `Storage` operations do from start to finish.
 */
module Commands {
  import opened Basics
  import opened Paths
  import opened FileTree

  /** The values of the one-byte type field that name no command. */
  type OtherCode = n: nat | n == 0 || 10 <= n < 256

  datatype Kind =
    | CreateFile
    | ReadFile
    | WriteFile
    | AppendFile
    | DeleteFile
    | CreateDir
    | ListDir
    | DeleteDir
    | RenameEntry
    | Unknown(code: OtherCode)

  datatype Command = Command(kind: Kind, path: string, newPath: string, contents: Bytes)

  /** The seven kinds that `dispatch_command` sends through consensus. */
  predicate Mutating(k: Kind)
  {
    !k.ReadFile? && !k.ListDir? && !k.Unknown?
  }

  predicate Writes(k: Kind)
  {
    k.WriteFile? || k.AppendFile?
  }

  /** The command passes `validate_path` and so reaches the file system. */
  predicate Accepts(c: Command)
  {
    Mutating(c.kind) && Accepted(c.path) && (c.kind.RenameEntry? ==> Accepted(c.newPath))
  }

  /** The status of a command that never reaches the file system. */
  function Rejection(c: Command): Status
  {
    if Mutating(c.kind) then Failed(InvalidPath)
    else if c.kind.Unknown? then Failed(InvalidCommand)
    else Fine
  }

  /** The one system call on the tree that an accepted command makes. */
  function Call<F>(t: Tree<F>, c: Command, empty: F): Sys<F>
  {
    var g := TargetOf(c.path);
    match c.kind
    case CreateFile => OpenExcl(t, g, empty)
    case WriteFile => OpenWrite(t, g, empty)
    case AppendFile => OpenWrite(t, g, empty)
    case DeleteFile => Unlink(t, g)
    case CreateDir => Mkdir(t, g)
    case DeleteDir => Rmdir(t, g)
    case RenameEntry => Rename(t, g, TargetOf(c.newPath))
    case _ => Sys(t, None)
  }

  /** The errors that the storage layer reports as success. */
  predicate Forgiven(k: Kind, e: Errno)
  {
    || (e == EEXIST && (k.CreateFile? || k.CreateDir?))
    || (e == ENOENT && (k.DeleteFile? || k.DeleteDir?))
  }

  /** `Error::from_errno`. */
  function CodeOf(e: Errno): ErrorCode
  {
    match e
    case ENOENT => FileNotFound
    case EEXIST => AlreadyExists
    case ENOTDIR => NotDirectory
    case _ => IoError
  }

  function StatusOf(k: Kind, err: Option<Errno>): Status
  {
    if err.None? || Forgiven(k, err.value) then Fine else Failed(CodeOf(err.value))
  }

  /** The contents a write or append leaves in a file that held `was`. */
  function Saved(c: Command, was: Bytes): Bytes
  {
    (if c.kind.AppendFile? then was else []) + c.contents
  }

  function Fill(t: Tree<Bytes>, p: Path, c: Command): Tree<Bytes>
  {
    if IsFile(t, p) then t[p := File(Saved(c, t[p].f))] else t
  }

  datatype Outcome = Outcome(tree: Tree<Bytes>, status: Status)

  /** One command applied as a whole. */
  function Exec(t: Tree<Bytes>, c: Command): Outcome
  {
    if !Accepts(c) then Outcome(t, Rejection(c))
    else
      var r := Call(t, c, []);
      Outcome(if r.err.None? && Writes(c.kind) then Fill(r.tree, TargetOf(c.path).path, c) else r.tree,
              StatusOf(c.kind, r.err))
  }

  /** A log applied in order. */
  function Run(t: Tree<Bytes>, log: seq<Command>): Tree<Bytes>
  {
    if log == [] then t else Exec(Run(t, log[..|log| - 1]), log[|log| - 1]).tree
  }

  function Statuses(t: Tree<Bytes>, log: seq<Command>): (r: seq<Status>)
    ensures |r| == |log|
  {
    if log == [] then []
    else
      var before := log[..|log| - 1];
      Statuses(t, before) + [Exec(Run(t, before), log[|log| - 1]).status]
  }

  /** What `read_file` returns when nothing else runs. */
  function ReadOf(t: Tree<Bytes>, p: string): Result<Bytes>
  {
    if !Accepted(p) then Err(InvalidPath) else ReadTarget(t, TargetOf(p))
  }

  function ReadTarget(t: Tree<Bytes>, g: Target): Result<Bytes>
  {
    if !Present(t, g) then Err(CodeOf(Missing(t, g)))
    else if t[g.path].Dir? || |t[g.path].f| > SIZE_LIMIT then Err(IoError)
    else Ok(t[g.path].f)
  }

  /* ---------- Tree invariant ---------- */

  lemma CallKeepsWellFormed<F>(t: Tree<F>, c: Command, empty: F)
    requires WellFormed(t)
    ensures WellFormed(Call(t, c, empty).tree)
  {
    match c.kind
    case RenameEntry => RenameKeepsWellFormed(t, TargetOf(c.path), TargetOf(c.newPath));
    case DeleteFile => RemovalKeepsWellFormed(t, TargetOf(c.path));
    case DeleteDir => RemovalKeepsWellFormed(t, TargetOf(c.path));
    case _ => CreationKeepsWellFormed(t, TargetOf(c.path), empty);
  }

  lemma CreationKeepsWellFormed<F>(t: Tree<F>, g: Target, empty: F)
    requires WellFormed(t)
    ensures WellFormed(OpenExcl(t, g, empty).tree)
    ensures WellFormed(OpenWrite(t, g, empty).tree)
    ensures WellFormed(Mkdir(t, g).tree)
  {
    if CanCreate(t, g) {
      PutKeepsWellFormed(t, g, File(empty));
      PutKeepsWellFormed(t, g, Dir);
    }
  }

  lemma RemovalKeepsWellFormed<F>(t: Tree<F>, g: Target)
    requires WellFormed(t)
    ensures WellFormed(Unlink(t, g).tree)
    ensures WellFormed(Rmdir(t, g).tree)
  {
    if g.path in t && (t[g.path].File? || !HasChild(t, g.path)) {
      RemoveKeepsWellFormed(t, g.path);
    }
  }

  lemma RenameKeepsWellFormed<F>(t: Tree<F>, o: Target, n: Target)
    requires WellFormed(t)
    ensures WellFormed(Rename(t, o, n).tree)
  {
    if Rename(t, o, n).err == None && o.path != n.path {
      RenameReachesMove(t, o, n);
      MoveKeepsWellFormed(t, o.path, n.path);
    }
  }

  /** Every log keeps the tree well-formed. */
  lemma {:induction false} RunKeepsWellFormed(t: Tree<Bytes>, log: seq<Command>)
    requires WellFormed(t)
    ensures WellFormed(Run(t, log))
  {
    if log != [] {
      RunKeepsWellFormed(t, log[..|log| - 1]);
      ExecKeepsWellFormed(Run(t, log[..|log| - 1]), log[|log| - 1]);
    }
  }

  lemma ExecKeepsWellFormed(t: Tree<Bytes>, c: Command)
    requires WellFormed(t)
    ensures WellFormed(Exec(t, c).tree)
  {
    CallKeepsWellFormed(t, c, []);
    FillKeepsWellFormed(Call(t, c, []).tree, TargetOf(c.path).path, c);
  }

  lemma FillKeepsWellFormed(t: Tree<Bytes>, p: Path, c: Command)
    requires WellFormed(t)
    ensures WellFormed(Fill(t, p, c))
  {
  }

  /** A successful rename between different files carries the whole subtree, removes it from its
      old place, and touches nothing else. */
  lemma RenameMovesSubtree(t: Tree<Bytes>, c: Command)
    requires WellFormed(t) && c.kind.RenameEntry? && Exec(t, c).status == Fine
    requires TargetOf(c.path).path != TargetOf(c.newPath).path
    ensures var o, n, t' := TargetOf(c.path).path, TargetOf(c.newPath).path, Exec(t, c).tree;
            && o in t
            && (forall r: Path :: (n + r in t' <==> o + r in t) && (o + r in t ==> t'[n + r] == t[o + r]))
            && (forall q :: q in t' ==> !(o <= q))
            && (forall q :: !(o <= q) && !(n <= q) ==> (q in t' <==> q in t) && (q in t ==> t'[q] == t[q]))
  {
    var o, n := TargetOf(c.path), TargetOf(c.newPath);
    RenameSucceeded(t, c);
    RenameReachesMove(t, o, n);
    MoveContents(t, o.path, n.path);
  }

  lemma RenameSucceeded(t: Tree<Bytes>, c: Command)
    requires c.kind.RenameEntry? && Exec(t, c).status == Fine
    ensures var r := Rename(t, TargetOf(c.path), TargetOf(c.newPath));
            r.err == None && Exec(t, c).tree == r.tree
  {
    CallOfRename(t, c, []);
  }

  lemma ExecOfRename(t: Tree<Bytes>, c: Command)
    requires c.kind.RenameEntry? && Accepts(c)
    ensures Exec(t, c).tree == Rename(t, TargetOf(c.path), TargetOf(c.newPath)).tree
  {
    CallOfRename(t, c, []);
  }

  lemma CallOfRename<F>(t: Tree<F>, c: Command, empty: F)
    requires c.kind.RenameEntry?
    ensures Call(t, c, empty) == Rename(t, TargetOf(c.path), TargetOf(c.newPath))
  {
  }

  /** A base directory that was deleted can come back as a regular file. */
  lemma BaseCanBecomeAFile()
    ensures var t: Tree<Bytes> := map[[] := Dir];
            Run(t, [Command(DeleteDir, "", "", []), Command(WriteFile, "", "", [7])]) == map[[] := File([7])]
  {
    var t: Tree<Bytes> := map[[] := Dir];
    var del, put := Command(DeleteDir, "", "", []), Command(WriteFile, "", "", [7]);
    assert Split("") == [""];
    assert TargetOf("") == Target([], false);
    assert !HasChild(t, []);
    assert Exec(t, del).tree == map[];
    assert Saved(put, []) == [7];
    assert Exec(map[], put).tree == map[[] := File([7])];
    RunTwo(t, del, put);
  }

  lemma RunTwo(t: Tree<Bytes>, a: Command, b: Command)
    ensures Run(t, [a, b]) == Exec(Exec(t, a).tree, b).tree
  {
    assert [a, b][..1] == [a] && [a][..0] == [];
    assert Run(t, [a]) == Exec(t, a).tree;
  }

  /* ---------- What a status tells ---------- */

  /** The contents of the file at `p`, if there is one. */
  function Get(t: Tree<Bytes>, p: Path): Option<Bytes>
  {
    if IsFile(t, p) then Some(t[p].f) else None
  }

  function Or(x: Option<Bytes>): Bytes
  {
    if x.Some? then x.value else []
  }

  lemma OpenFinds(t: Tree<Bytes>, g: Target)
    requires OpenWrite(t, g, []).err.None?
    ensures var t' := OpenWrite(t, g, []).tree;
            !g.dot && IsFile(t', g.path) && t'[g.path].f == Or(Get(t, g.path))
  {
  }

  lemma SaveOpens(t: Tree<Bytes>, c: Command)
    requires Writes(c.kind) && Exec(t, c).status == Fine
    ensures var g := TargetOf(c.path);
            Accepts(c) && OpenWrite(t, g, []).err.None? && Exec(t, c).tree == Fill(OpenWrite(t, g, []).tree, g.path, c)
  {
  }

  lemma SaveLeaves(t: Tree<Bytes>, c: Command)
    requires Writes(c.kind) && Exec(t, c).status == Fine
    ensures var g, t' := TargetOf(c.path), Exec(t, c).tree;
            Accepted(c.path) && !g.dot && g.path in t' && t'[g.path] == File(Saved(c, Or(Get(t, g.path))))
  {
    SaveOpens(t, c);
    OpenFinds(t, TargetOf(c.path));
  }

  lemma RemovalLeaves<F>(t: Tree<F>, g: Target)
    ensures var r := Unlink(t, g); r.err.None? || r.err == Some(ENOENT) ==> g.path !in r.tree
    ensures var r := Rmdir(t, g); r.err.None? || r.err == Some(ENOENT) ==> g.path !in r.tree
  {
  }

  lemma CreationLeaves<F>(t: Tree<F>, g: Target, empty: F)
    ensures var r := OpenExcl(t, g, empty); r.err.None? || r.err == Some(EEXIST) ==> g.path in r.tree
    ensures var r := Mkdir(t, g); r.err.None? || r.err == Some(EEXIST) ==> g.path in r.tree
  {
  }

  lemma RenameLeaves<F>(t: Tree<F>, o: Target, n: Target)
    requires WellFormed(t)
    ensures Rename(t, o, n).err.None? ==> o.path in t && n.path in Rename(t, o, n).tree
    ensures Rename(t, o, n).err.None? && o.path != n.path ==> o.path !in Rename(t, o, n).tree
  {
    if Rename(t, o, n).err.None? && o.path != n.path {
      RenameReachesMove(t, o, n);
      assert o.path + n.path[|n.path|..] == o.path;
      MoveAt(t, o.path, n.path, n.path);
      MoveAt(t, o.path, n.path, o.path);
    }
  }

  /** A command that reports success has left its path as asked: a create leaves something there (an
      entry of either kind), a write its bytes, an append its bytes after the old ones, a delete
      nothing, a rename nothing at the old name and something at the new one. */
  lemma SuccessTakesEffect(t: Tree<Bytes>, c: Command)
    requires WellFormed(t) && Mutating(c.kind) && Exec(t, c).status == Fine
    ensures var p, n, t' := TargetOf(c.path).path, TargetOf(c.newPath).path, Exec(t, c).tree;
            && (c.kind.CreateFile? || c.kind.CreateDir? ==> p in t')
            && (c.kind.WriteFile? ==> p in t' && t'[p] == File(c.contents))
            && (c.kind.AppendFile? ==> p in t' && t'[p] == File(Or(Get(t, p)) + c.contents))
            && (c.kind.DeleteFile? || c.kind.DeleteDir? ==> p !in t')
            && (c.kind.RenameEntry? ==> p in t && n in t' && (p != n ==> p !in t'))
  {
    var g := TargetOf(c.path);
    if Writes(c.kind) {
      SaveLeaves(t, c);
      assert [] + c.contents == c.contents;
    } else if c.kind.RenameEntry? {
      RenameSucceeded(t, c);
      RenameLeaves(t, g, TargetOf(c.newPath));
    } else if c.kind.DeleteFile? || c.kind.DeleteDir? {
      RemovalLeaves(t, g);
    } else {
      CreationLeaves(t, g, []);
    }
  }

  lemma FailedCallsKeepTree<F>(t: Tree<F>, g: Target, n: Target, empty: F)
    ensures OpenExcl(t, g, empty).err.Some? ==> OpenExcl(t, g, empty).tree == t
    ensures OpenWrite(t, g, empty).err.Some? ==> OpenWrite(t, g, empty).tree == t
    ensures Mkdir(t, g).err.Some? ==> Mkdir(t, g).tree == t
    ensures Unlink(t, g).err.Some? ==> Unlink(t, g).tree == t
    ensures Rmdir(t, g).err.Some? ==> Rmdir(t, g).tree == t
    ensures Rename(t, g, n).err.Some? ==> Rename(t, g, n).tree == t
  {
  }

  /** A command that reports failure has changed nothing. */
  lemma FailureChangesNothing(t: Tree<Bytes>, c: Command)
    requires Exec(t, c).status != Fine
    ensures Exec(t, c).tree == t
  {
    if Accepts(c) {
      FailedCallKeepsTree(t, c, []);
    }
  }

  lemma FailedCallKeepsTree<F>(t: Tree<F>, c: Command, empty: F)
    requires Call(t, c, empty).err.Some?
    ensures Call(t, c, empty).tree == t
  {
    var g, n, r := TargetOf(c.path), TargetOf(c.newPath), Call(t, c, empty);
    assert || r == OpenExcl(t, g, empty) || r == OpenWrite(t, g, empty) || r == Mkdir(t, g)
           || r == Unlink(t, g) || r == Rmdir(t, g) || r == Rename(t, g, n) || r == Sys(t, None);
    FailedCallsKeepTree(t, g, n, empty);
  }

  /** Creating a file where a directory is, or a directory where a file is, reports success and does
      nothing. */
  lemma OtherKindCountsAsCreated(t: Tree<Bytes>, c: Command)
    requires Accepted(c.path) && !TargetOf(c.path).dot
    requires var p := TargetOf(c.path).path;
             (c.kind.CreateFile? && IsDir(t, p)) || (c.kind.CreateDir? && IsFile(t, p))
    ensures Exec(t, c) == Outcome(t, Fine)
  {
  }

  /* ---------- Prefixes and concatenation ---------- */

  lemma RunNext(t: Tree<Bytes>, log: seq<Command>, k: nat)
    requires k < |log|
    ensures Run(t, log[..k + 1]) == Exec(Run(t, log[..k]), log[k]).tree
    ensures Statuses(t, log[..k + 1]) == Statuses(t, log[..k]) + [Exec(Run(t, log[..k]), log[k]).status]
  {
    assert log[..k + 1][..k] == log[..k];
  }

  lemma {:induction false} RunAppend(t: Tree<Bytes>, a: seq<Command>, b: seq<Command>)
    ensures Run(t, a + b) == Run(Run(t, a), b)
    ensures Statuses(t, a + b) == Statuses(t, a) + Statuses(Run(t, a), b)
  {
    if b == [] {
      assert a + b == a;
    } else {
      var b' := b[..|b| - 1];
      assert (a + b)[..|a + b| - 1] == a + b';
      RunAppend(t, a, b');
    }
  }

  lemma StatusesOfPrefix(t: Tree<Bytes>, x: seq<Command>, y: seq<Command>)
    requires x <= y
    ensures Statuses(t, x) <= Statuses(t, y)
  {
    assert y == x + y[|x|..];
    RunAppend(t, x, y[|x|..]);
  }
}
