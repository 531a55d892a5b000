/**
  Restart without a snapshot: a node that crashed keeps its directory and is fed the log again from
  some earlier entry, because both snapshot hooks are empty and storage initialisation accepts the
  directory it finds.  The crash may fall between entries or inside one, when a write has put only
  part of its buffer on the disk.  This module says exactly for which command kinds that is harmless.
 */
module Replay {
  import opened Basics
  import opened Paths
  import opened FileTree
  import opened Commands
  import opened Histories

  /** The tree when a command has taken effect and was not recorded, or when a write or append was
      stopped after `k` bytes of its buffer. */
  function HalfDone(t: Tree<Bytes>, c: Command, k: nat): Tree<Bytes>
  {
    var done, p, n := Exec(t, c), TargetOf(c.path).path, |c.contents|;
    if Writes(c.kind) && done.status == Fine && k <= n && IsFile(done.tree, p) && n <= |done.tree[p].f|
    then done.tree[p := File(done.tree[p].f[..|done.tree[p].f| - n + k])]
    else done.tree
  }

  /** The tree that a crash after `k` entries leaves, if `left` is given inside the next entry. */
  function Crashed(t: Tree<Bytes>, log: seq<Command>, k: nat, left: Option<nat>): Tree<Bytes>
    requires k <= |log|
  {
    if left.Some? && k < |log| then HalfDone(Run(t, log[..k]), log[k], left.value) else Run(t, log[..k])
  }

  /** The tree after such a crash and a replay from `i` to the end. */
  function Replayed(t: Tree<Bytes>, log: seq<Command>, i: nat, k: nat, left: Option<nat>): Tree<Bytes>
    requires i <= k <= |log|
  {
    Run(Crashed(t, log, k, left), log[i..])
  }

  predicate Repeatable(kind: Kind)
  {
    Plain(kind) && !kind.AppendFile?
  }

  ghost predicate OfKinds(log: seq<Command>, kinds: set<Kind>)
  {
    forall j :: 0 <= j < |log| ==> log[j].kind in kinds
  }

  /** Every log of these kinds survives every crash and replay. */
  ghost predicate ReplaySafe(kinds: set<Kind>)
  {
    forall t: Tree<Bytes>, log: seq<Command>, i: nat, k: nat, left: Option<nat> ::
      WellFormed(t) && OfKinds(log, kinds) && i <= k <= |log| ==> Replayed(t, log, i, k, left) == Run(t, log)
  }

  /* ---------- Replaying is harmless ---------- */

  /** What a log without appends does to one file: sets it, leaves it, or makes sure it exists. */
  datatype Effect = Sets(x: Option<Bytes>) | Leaves | Makes

  function EffectOf(log: seq<Command>, p: Path): Effect
  {
    if log == [] then Leaves
    else
      var before, c := EffectOf(log[..|log| - 1], p), log[|log| - 1];
      if !Hits(c, p) then before
      else match c.kind
        case WriteFile => Sets(Some(c.contents))
        case DeleteFile => Sets(None)
        case CreateFile => if before.Sets? then Sets(Some(Or(before.x))) else Makes
        case _ => before
  }

  function Act(e: Effect, x: Option<Bytes>): Option<Bytes>
  {
    match e
    case Sets(y) => y
    case Leaves => x
    case Makes => Some(Or(x))
  }

  lemma {:induction false} FoldIsEffect(x: Option<Bytes>, log: seq<Command>, p: Path)
    requires forall j :: 0 <= j < |log| ==> Repeatable(log[j].kind)
    ensures Fold(x, log, p) == Act(EffectOf(log, p), x)
  {
    if log != [] {
      FoldIsEffect(x, log[..|log| - 1], p);
    }
  }

  /** A file that finishing the segment `b` would bring to where it belongs is brought there by `a` and
      `b` as well, if `a` comes before `b` in the log. */
  lemma SegmentAgain(x: Option<Bytes>, c: Option<Bytes>, a: seq<Command>, b: seq<Command>, p: Path)
    requires forall j :: 0 <= j < |a| ==> Repeatable(a[j].kind)
    requires forall j :: 0 <= j < |b| ==> Repeatable(b[j].kind)
    requires Fold(x, b, p) == Fold(c, a + b, p)
    ensures Fold(x, a + b, p) == Fold(c, a + b, p)
  {
    FoldAppend(x, a, b, p);
    FoldAppend(c, a, b, p);
    FoldIsEffect(x, a, p);
    FoldIsEffect(c, a, p);
    FoldIsEffect(x, b, p);
    FoldIsEffect(Fold(x, a, p), b, p);
    FoldIsEffect(Fold(c, a, p), b, p);
  }

  lemma FoldRestarted(x: Option<Bytes>, x0: Option<Bytes>, log: seq<Command>, i: nat, j: nat, p: Path)
    requires i <= j <= |log| && forall k :: 0 <= k < |log| ==> Repeatable(log[k].kind)
    requires Fold(x, log[j..], p) == Fold(x0, log, p)
    ensures Fold(x, log[i..], p) == Fold(x0, log, p)
  {
    var a, b := log[i..j], log[j..];
    assert log[i..] == a + b && log == log[..i] + (a + b);
    FoldAppend(x0, log[..i], a + b, p);
    SegmentAgain(x, Fold(x0, log[..i], p), a, b, p);
  }

  /** A tree from which replaying the rest of the log would give the clean result is still such a tree
      if the replay begins anew at an earlier entry. */
  lemma RestartIsHarmless(t: Tree<Bytes>, tree: Tree<Bytes>, log: seq<Command>, i: nat, j: nat)
    requires WellFormed(t) && WellFormed(tree) && i <= j <= |log|
    requires forall k :: 0 <= k < |log| ==> Repeatable(log[k].kind)
    requires Run(tree, log[j..]) == Run(t, log)
    ensures Run(tree, log[i..]) == Run(t, log)
  {
    forall p ensures Get(Run(tree, log[i..]), p) == Get(Run(t, log), p)
      ensures IsDir(Run(tree, log[i..]), p) <==> IsDir(Run(t, log), p)
    {
      RestartedAt(t, tree, log, i, j, p);
    }
    TreesEqual(Run(tree, log[i..]), Run(t, log));
  }

  lemma RestartedAt(t: Tree<Bytes>, tree: Tree<Bytes>, log: seq<Command>, i: nat, j: nat, p: Path)
    requires WellFormed(t) && WellFormed(tree) && i <= j <= |log|
    requires forall k :: 0 <= k < |log| ==> Repeatable(log[k].kind)
    requires Run(tree, log[j..]) == Run(t, log)
    ensures Get(Run(tree, log[i..]), p) == Get(Run(t, log), p)
    ensures IsDir(Run(tree, log[i..]), p) <==> IsDir(Run(t, log), p)
  {
    PlainRun(t, log, p);
    PlainRun(tree, log[j..], p);
    PlainRun(tree, log[i..], p);
    SameDirsFileable(Run(t, log), t, p);
    SameDirsFileable(Run(t, log), tree, p);
    if Fileable(t, p) {
      FoldRestarted(Get(tree, p), Get(t, p), log, i, j, p);
    }
  }

  /* ---------- Crashes inside an entry ---------- */

  lemma HalfKeepsWellFormed(t: Tree<Bytes>, c: Command, k: nat)
    requires WellFormed(t)
    ensures WellFormed(HalfDone(t, c, k))
  {
    ExecKeepsWellFormed(t, c);
  }

  /** What a repeatable command that was stopped half-way leaves of its file. */
  lemma HalfIsPut(t: Tree<Bytes>, c: Command, k: nat) returns (x: Option<Bytes>)
    requires WellFormed(t) && Repeatable(c.kind)
    ensures var g, half := TargetOf(c.path), HalfDone(t, c, k);
            if Accepts(c) && !g.dot && Fileable(t, g.path)
            then half == Put(t, g.path, x) && Next(c, x) == Next(c, Get(t, g.path))
            else half == t
  {
    PlainExec(t, c);
    var g, done := TargetOf(c.path), Exec(t, c).tree;
    x := Get(HalfDone(t, c, k), g.path);
    if Accepts(c) && !g.dot && Fileable(t, g.path) {
      PutAgain(t, g.path, Next(c, Get(t, g.path)), x);
    } else {
      NotAWrite(t, c);
    }
  }

  lemma NotAWrite(t: Tree<Bytes>, c: Command)
    requires WellFormed(t) && !(Accepts(c) && !TargetOf(c.path).dot && Fileable(t, TargetOf(c.path).path))
    ensures !(Writes(c.kind) && Exec(t, c).status == Fine)
  {
  }

  lemma PutAgain(t: Tree<Bytes>, p: Path, x: Option<Bytes>, y: Option<Bytes>)
    requires !IsDir(t, p)
    ensures Put(Put(t, p, x), p, y) == Put(t, p, y)
    ensures Get(Put(t, p, x), p) == x
  {
  }

  /** Applying it from there is applying it once. */
  lemma AgainIsOnce(t: Tree<Bytes>, c: Command, k: nat)
    requires WellFormed(t) && Repeatable(c.kind)
    ensures Exec(HalfDone(t, c, k), c).tree == Exec(t, c).tree
  {
    var g, half := TargetOf(c.path), HalfDone(t, c, k);
    var x := HalfIsPut(t, c, k);
    HalfKeepsWellFormed(t, c, k);
    PlainExec(t, c);
    PlainExec(half, c);
    if Accepts(c) && !g.dot && Fileable(t, g.path) {
      PutKeepsDirs(t, g.path, x);
      SameDirsFileable(half, t, g.path);
      PutAgain(t, g.path, x, Next(c, x));
    }
  }

  lemma RunFirst(t: Tree<Bytes>, log: seq<Command>)
    requires log != []
    ensures Run(t, log) == Run(Exec(t, log[0]).tree, log[1..])
  {
    assert log == [log[0]] + log[1..];
    RunAppend(t, [log[0]], log[1..]);
    RunOne(t, log[0]);
  }

  /** A tree from which replaying the rest of the log would give the clean result may be caught inside
      the next entry, and the replay may begin anew at an earlier one. */
  lemma CrashIsHarmless(t: Tree<Bytes>, tree: Tree<Bytes>, log: seq<Command>, i: nat, j: nat, k: nat)
    requires WellFormed(t) && WellFormed(tree) && i <= j < |log|
    requires forall x :: 0 <= x < |log| ==> Repeatable(log[x].kind)
    requires Run(tree, log[j..]) == Run(t, log)
    ensures Run(HalfDone(tree, log[j], k), log[i..]) == Run(t, log)
  {
    var half := HalfDone(tree, log[j], k);
    HalfKeepsWellFormed(tree, log[j], k);
    AgainIsOnce(tree, log[j], k);
    RunFirst(tree, log[j..]);
    RunFirst(half, log[j..]);
    RestartIsHarmless(t, half, log, i, j);
  }

  /** Replay safety: creates, writes and deletes of files, and entries that change nothing, may be
      replayed from any earlier entry, after a crash between entries or inside one. */
  lemma ReplayIsHarmless(t: Tree<Bytes>, log: seq<Command>, i: nat, k: nat, left: Option<nat>)
    requires WellFormed(t) && i <= k <= |log|
    requires forall j :: 0 <= j < |log| ==> Repeatable(log[j].kind)
    ensures Replayed(t, log, i, k, left) == Run(t, log)
  {
    RunKeepsWellFormed(t, log[..k]);
    assert log == log[..k] + log[k..];
    RunAppend(t, log[..k], log[k..]);
    if left.Some? && k < |log| {
      CrashIsHarmless(t, Run(t, log[..k]), log, i, k, left.value);
    } else {
      RestartIsHarmless(t, Run(t, log[..k]), log, i, k);
    }
  }

  /* ---------- and harmful for every other kind ---------- */

  lemma SimpleNames()
    ensures Accepted("a") && Accepted("b") && Accepted("c") && Accepted("a/b")
    ensures TargetOf("a") == Target(["a"], false)
    ensures TargetOf("b") == Target(["b"], false)
    ensures TargetOf("c") == Target(["c"], false)
    ensures TargetOf("a/b") == Target(["a", "b"], false)
  {
    OneName("a");
    OneName("b");
    OneName("c");
    TwoNames("a", "b");
    assert "a" + "/" + "b" == "a/b";
  }

  predicate Letter(c: string)
  {
    IsName(c) && |c| == 1 && c != "." && c[0] != '\0'
  }

  lemma OneName(c: string)
    requires Letter(c)
    ensures Accepted(c) && TargetOf(c) == Target([c], false)
  {
    assert Join([c]) == c;
    PlainPath([c]);
  }

  lemma TwoNames(a: string, b: string)
    requires Letter(a) && Letter(b)
    ensures Accepted(a + "/" + b) && TargetOf(a + "/" + b) == Target([a, b], false)
  {
    JoinSnoc([a], b);
    assert [a] + [b] == [a, b] && Join([a]) == a;
    PlainPath([a, b]);
  }

  lemma RunOne(t: Tree<Bytes>, c: Command)
    ensures Run(t, [c]) == Exec(t, c).tree
  {
    assert [c][..0] == [];
  }

  /** A single entry, crashed after it and replayed, runs twice. */
  lemma ReplayOne(t: Tree<Bytes>, c: Command)
    ensures Replayed(t, [c], 0, 1, None) == Exec(Exec(t, c).tree, c).tree
    ensures Run(t, [c]) == Exec(t, c).tree
  {
    assert [c][..1] == [c] && [c][0..] == [c];
    RunOne(t, c);
    RunOne(Exec(t, c).tree, c);
  }

  lemma ReplayTwo(t: Tree<Bytes>, a: Command, b: Command)
    ensures Run(t, [a, b]) == Exec(Exec(t, a).tree, b).tree
    ensures Replayed(t, [a, b], 0, 2, None) == Exec(Exec(Run(t, [a, b]), a).tree, b).tree
  {
    assert [a, b][..2] == [a, b] && [a, b][0..] == [a, b];
    RunTwo(t, a, b);
    RunTwo(Run(t, [a, b]), a, b);
  }

  predicate LastSucceeds(t: Tree<Bytes>, log: seq<Command>)
  {
    log != [] && Exec(Run(t, log[..|log| - 1]), log[|log| - 1]).status == Fine
  }

  /** A tree and a log of one kind that a crash after the last entry and a replay from the first
      change for good, although the last entry succeeds. */
  ghost predicate Harm(kind: Kind, t: Tree<Bytes>, log: seq<Command>)
  {
    && WellFormed(t) && (forall j :: 0 <= j < |log| ==> log[j].kind == kind)
    && LastSucceeds(t, log)
    && Replayed(t, log, 0, |log|, None) != Run(t, log)
  }

  /** A command with paths of at most three characters and at most `n` bytes. */
  predicate Small(c: Command, n: nat)
  {
    |c.path| <= 3 && |c.newPath| <= 3 && |c.contents| <= n
  }

  /** A command without contents on some of these paths. */
  predicate Bare(c: Command, x: string, y: string, z: string)
  {
    c.contents == [] && (c.path == x || c.path == y || c.path == z)
    && (c.newPath == x || c.newPath == y || c.newPath == z)
  }

  /** Two entries that, done a second time, change the tree again. */
  lemma HarmOfTwo(t: Tree<Bytes>, a: Command, b: Command, once: Tree<Bytes>, twice: Tree<Bytes>)
      returns (log: seq<Command>)
    requires WellFormed(t) && a.kind == b.kind && once != twice && once != Exec(t, a).tree
    requires once == Exec(Exec(t, a).tree, b).tree && twice == Exec(Exec(once, a).tree, b).tree
    ensures Harm(a.kind, t, log) && Run(t, log) == once && Replayed(t, log, 0, |log|, None) == twice
    ensures forall j :: 0 <= j < |log| ==> log[j] == a || log[j] == b
  {
    log := [a, b];
    ReplayTwo(t, a, b);
    ChangeMeansSuccess(Exec(t, a).tree, b);
    LastOfTwo(t, a, b, log);
  }

  lemma ChangeMeansSuccess(t: Tree<Bytes>, c: Command)
    requires Exec(t, c).tree != t
    ensures Exec(t, c).status == Fine
  {
    if Exec(t, c).status != Fine {
      FailureChangesNothing(t, c);
    }
  }

  lemma LastOfTwo(t: Tree<Bytes>, a: Command, b: Command, log: seq<Command>)
    requires log == [a, b] && Exec(Exec(t, a).tree, b).status == Fine
    ensures LastSucceeds(t, log)
  {
    assert log[..1] == [a];
    RunOne(t, a);
  }

  /** Appending twice is not appending once. */
  lemma AppendsDoNotRepeat(b: Bytes) returns (t: Tree<Bytes>, log: seq<Command>)
    requires b != []
    ensures Harm(AppendFile, t, log)
    ensures Run(t, log) == t[["a"] := File(b)] && Replayed(t, log, 0, |log|, None) == t[["a"] := File(b + b)]
    ensures forall j :: 0 <= j < |log| ==> Small(log[j], |b|)
  {
    t := Empty();
    SimpleNames();
    log := AppendHarm(t, Command(AppendFile, "a", "", b), ["a"]);
  }

  /** A base directory with nothing in it. */
  function Empty(): (t: Tree<Bytes>)
    ensures WellFormed(t) && IsDir(t, [])
    ensures forall name: string :: [name] !in t && Fileable(t, [name])
  {
    assert forall name: string :: Parent([name]) == [];
    map[[] := Dir]
  }

  lemma AppendHarm(t: Tree<Bytes>, c: Command, p: Path) returns (log: seq<Command>)
    requires WellFormed(t) && c.kind.AppendFile? && Hits(c, p) && Fileable(t, p) && p !in t && c.contents != []
    ensures Harm(AppendFile, t, log) && Run(t, log) == t[p := File(c.contents)]
    ensures Replayed(t, log, 0, |log|, None) == t[p := File(c.contents + c.contents)]
    ensures forall j :: 0 <= j < |log| ==> log[j] == c
  {
    log := [c];
    ReplayOne(t, c);
    AppendExec(t, c, p, []);
    assert [] + c.contents == c.contents;
    var t1 := t[p := File(c.contents)];
    AppendExec(t1, c, p, c.contents);
    UpdatedTwice(t, p, File(c.contents), File(c.contents + c.contents));
    assert |c.contents + c.contents| != |c.contents|;
    assert p in t1;
    ChangeMeansSuccess(t, c);
    assert log[..0] == [];
  }

  lemma AppendExec(t: Tree<Bytes>, c: Command, p: Path, was: Bytes)
    requires WellFormed(t) && c.kind.AppendFile? && Hits(c, p) && Fileable(t, p) && was == Or(Get(t, p))
    ensures Exec(t, c).tree == t[p := File(was + c.contents)]
    ensures WellFormed(Exec(t, c).tree)
  {
    SaveReaches(t, p, c);
    RunOne(t, c);
    RunKeepsWellFormed(t, [c]);
  }

  lemma MkdirExec(t: Tree<Bytes>, path: string, p: Path)
    requires Accepted(path) && TargetOf(path) == Target(p, false)
    ensures Exec(t, Command(CreateDir, path, "", [])).tree ==
            if p !in t && (p == [] || IsDir(t, Parent(p))) then t[p := Dir] else t
  {
    DirectoryExec(t, Command(CreateDir, path, "", []), Target(p, false));
  }

  lemma DirectoryExec(t: Tree<Bytes>, c: Command, g: Target)
    requires Accepts(c) && TargetOf(c.path) == g
    ensures c.kind.CreateDir? ==> Exec(t, c).tree == Mkdir(t, g).tree
    ensures c.kind.DeleteDir? ==> Exec(t, c).tree == Rmdir(t, g).tree
  {
  }

  /** A failed mkdir of a child succeeds once its parent exists. */
  lemma MkdirsDoNotRepeat() returns (t: Tree<Bytes>, log: seq<Command>)
    ensures Harm(CreateDir, t, log)
    ensures Run(t, log) == t[["a"] := Dir] && Replayed(t, log, 0, |log|, None) == t[["a"] := Dir][["a", "b"] := Dir]
    ensures forall j :: 0 <= j < |log| ==> Small(log[j], 0)
  {
    t := Empty();
    SimpleNames();
    assert Parent(["a"]) == [] && Parent(["a", "b"]) == ["a"];
    NothingDeep(t, ["a", "b"]);
    log := MkdirHarm(t, "a", "a/b", ["a"], ["a", "b"]);
  }

  lemma NothingDeep(t: Tree<Bytes>, p: Path)
    requires WellFormed(t) && p != [] && Parent(p) !in t
    ensures p !in t
  {
  }

  lemma MkdirHarm(t: Tree<Bytes>, up: string, down: string, p: Path, child: Path) returns (log: seq<Command>)
    requires WellFormed(t) && Accepted(up) && Accepted(down)
    requires TargetOf(up) == Target(p, false) && TargetOf(down) == Target(child, false)
    requires p != [] && child != [] && Parent(child) == p && IsDir(t, Parent(p)) && p !in t && child !in t
    ensures Harm(CreateDir, t, log)
    ensures Run(t, log) == t[p := Dir] && Replayed(t, log, 0, |log|, None) == t[p := Dir][child := Dir]
    ensures forall j :: 0 <= j < |log| ==> Bare(log[j], up, down, "")
  {
    MkdirChain(t, up, down, p, child);
    PutsDiffer(t, p, child);
    var a, b := Command(CreateDir, down, "", []), Command(CreateDir, up, "", []);
    log := HarmOfTwo(t, a, b, t[p := Dir], t[p := Dir][child := Dir]);
  }

  /** Making the child fails, then the parent is made; the second time the child is made too. */
  lemma MkdirChain(t: Tree<Bytes>, up: string, down: string, p: Path, child: Path)
    requires Accepted(up) && Accepted(down)
    requires TargetOf(up) == Target(p, false) && TargetOf(down) == Target(child, false)
    requires p != [] && child != [] && Parent(child) == p && IsDir(t, Parent(p)) && p !in t && child !in t
    ensures var a, b := Command(CreateDir, down, "", []), Command(CreateDir, up, "", []);
            var t2 := Exec(Exec(t, a).tree, b).tree;
            Exec(t, a).tree == t && t2 == t[p := Dir] && Exec(Exec(t2, a).tree, b).tree == t[p := Dir][child := Dir]
  {
    var t1 := t[p := Dir];
    MkdirExec(t, down, child);
    MkdirExec(t, up, p);
    MkdirExec(t1, down, child);
    MkdirExec(t1[child := Dir], up, p);
  }

  lemma PutsDiffer(t: Tree<Bytes>, p: Path, child: Path)
    requires p !in t && child !in t && p != child
    ensures t[p := Dir] != t && t[p := Dir][child := Dir] != t[p := Dir]
  {
    assert p in t[p := Dir];
    assert child in t[p := Dir][child := Dir] && child !in t[p := Dir];
  }

  lemma RmdirExec(t: Tree<Bytes>, path: string, p: Path)
    requires Accepted(path) && TargetOf(path) == Target(p, false)
    ensures Exec(t, Command(DeleteDir, path, "", [])).tree == if IsDir(t, p) && !HasChild(t, p) then t - {p} else t
  {
    DirectoryExec(t, Command(DeleteDir, path, "", []), Target(p, false));
  }

  /** A failed rmdir of a parent succeeds once its child is gone. */
  lemma RmdirsDoNotRepeat() returns (t: Tree<Bytes>, log: seq<Command>)
    ensures Harm(DeleteDir, t, log)
    ensures Run(t, log) == t - {["a", "b"]} && Replayed(t, log, 0, |log|, None) == t - {["a", "b"]} - {["a"]}
    ensures forall j :: 0 <= j < |log| ==> Small(log[j], 0)
  {
    var p: Path, child: Path := ["a"], ["a", "b"];
    t := map[[] := Dir, p := Dir, child := Dir];
    SimpleNames();
    assert Parent(p) == [] && Parent(child) == p;
    log := RmdirHarm(t, "a", "a/b", p, child);
  }

  lemma RmdirHarm(t: Tree<Bytes>, up: string, down: string, p: Path, child: Path) returns (log: seq<Command>)
    requires WellFormed(t) && Accepted(up) && Accepted(down)
    requires TargetOf(up) == Target(p, false) && TargetOf(down) == Target(child, false)
    requires IsDir(t, p) && child != [] && Parent(child) == p && IsDir(t, child)
    requires forall q :: q in t && q != [] ==> Parent(q) != child && (Parent(q) == p ==> q == child)
    ensures Harm(DeleteDir, t, log)
    ensures Run(t, log) == t - {child} && Replayed(t, log, 0, |log|, None) == t - {child} - {p}
    ensures forall j :: 0 <= j < |log| ==> Bare(log[j], up, down, "")
  {
    OnlyChild(t, p, child);
    log := RmdirTwice(t, up, down, p, child);
  }

  lemma RmdirTwice(t: Tree<Bytes>, up: string, down: string, p: Path, child: Path) returns (log: seq<Command>)
    requires WellFormed(t) && Accepted(up) && Accepted(down) && p != child && IsDir(t, p) && IsDir(t, child)
    requires TargetOf(up) == Target(p, false) && TargetOf(down) == Target(child, false)
    requires HasChild(t, p) && !HasChild(t, child) && !HasChild(t - {child}, p)
    ensures Harm(DeleteDir, t, log)
    ensures Run(t, log) == t - {child} && Replayed(t, log, 0, |log|, None) == t - {child} - {p}
    ensures forall j :: 0 <= j < |log| ==> Bare(log[j], up, down, "")
  {
    RmdirChain(t, up, down, p, child);
    DropsDiffer(t, p, child);
    var a, b := Command(DeleteDir, up, "", []), Command(DeleteDir, down, "", []);
    log := HarmOfTwo(t, a, b, t - {child}, t - {child} - {p});
  }

  lemma DropsDiffer(t: Tree<Bytes>, p: Path, child: Path)
    requires p in t && child in t && p != child
    ensures t - {child} != t && t - {child} - {p} != t - {child}
  {
    assert child !in t - {child};
    assert p in t - {child} && p !in t - {child} - {p};
  }

  lemma OnlyChild(t: Tree<Bytes>, p: Path, child: Path)
    requires child in t && child != [] && Parent(child) == p
    requires forall q :: q in t && q != [] ==> Parent(q) != child && (Parent(q) == p ==> q == child)
    ensures HasChild(t, p) && !HasChild(t, child) && !HasChild(t - {child}, p)
  {
  }

  /** Removing the parent fails, then the child goes; the second time the parent goes too. */
  lemma RmdirChain(t: Tree<Bytes>, up: string, down: string, p: Path, child: Path)
    requires Accepted(up) && Accepted(down) && p != child && IsDir(t, p) && IsDir(t, child)
    requires TargetOf(up) == Target(p, false) && TargetOf(down) == Target(child, false)
    requires HasChild(t, p) && !HasChild(t, child) && !HasChild(t - {child}, p)
    ensures var a, b := Command(DeleteDir, up, "", []), Command(DeleteDir, down, "", []);
            var t2 := Exec(Exec(t, a).tree, b).tree;
            Exec(t, a).tree == t && t2 == t - {child} && Exec(Exec(t2, a).tree, b).tree == t - {child} - {p}
  {
    RmdirExec(t, up, p);
    RmdirPass(t, up, down, p, child);
    RmdirPass(t - {child}, up, down, p, child);
  }

  /** One pass over both: the parent goes if it has no child, and the child goes if it is there. */
  lemma RmdirPass(t: Tree<Bytes>, up: string, down: string, p: Path, child: Path)
    requires Accepted(up) && Accepted(down) && p != child && IsDir(t, p) && !HasChild(t, child)
    requires TargetOf(up) == Target(p, false) && TargetOf(down) == Target(child, false)
    requires child in t ==> IsDir(t, child) && HasChild(t, p)
    requires child !in t ==> !HasChild(t, p)
    ensures var a, b := Command(DeleteDir, up, "", []), Command(DeleteDir, down, "", []);
            Exec(Exec(t, a).tree, b).tree == if child in t then t - {child} else t - {p}
  {
    RmdirExec(t, up, p);
    RmdirExec(if child in t then t else t - {p}, down, child);
  }

  /** A name that a second rename filled again is moved again. */
  lemma RenamesDoNotRepeat() returns (t: Tree<Bytes>, log: seq<Command>)
    ensures Harm(RenameEntry, t, log)
    ensures ["a"] in Run(t, log) && ["a"] !in Replayed(t, log, 0, |log|, None)
    ensures forall j :: 0 <= j < |log| ==> Small(log[j], 0)
  {
    SimpleNames();
    t := TwoFiles("a", "b", "c");
    log := RenameHarm(t, "a", "b", "c");
  }

  lemma TwoFiles(x: string, y: string, z: string) returns (t: Tree<Bytes>)
    requires x != y && y != z && x != z
    ensures WellFormed(t) && IsDir(t, []) && IsFile(t, [x]) && IsFile(t, [z]) && [y] !in t
  {
    assert Parent([x]) == [] && Parent([z]) == [] && [x][0] == x && [y][0] == y && [z][0] == z;
    t := Empty()[[x] := File([])][[z] := File([])];
  }

  lemma RenameHarm(t: Tree<Bytes>, x: string, y: string, z: string) returns (log: seq<Command>)
    requires WellFormed(t) && IsDir(t, []) && x != y && y != z && x != z
    requires Accepted(x) && Accepted(y) && Accepted(z)
    requires TargetOf(x) == Target([x], false) && TargetOf(y) == Target([y], false) && TargetOf(z) == Target([z], false)
    requires IsFile(t, [x]) && IsFile(t, [z]) && [y] !in t
    ensures Harm(RenameEntry, t, log) && [x] in Run(t, log) && [x] !in Replayed(t, log, 0, |log|, None)
    ensures forall j :: 0 <= j < |log| ==> Bare(log[j], x, y, z)
  {
    var a, b := Command(RenameEntry, x, y, []), Command(RenameEntry, z, x, []);
    RenameChain(t, x, y, z);
    var once := Exec(Exec(t, a).tree, b).tree;
    log := HarmOfTwo(t, a, b, once, Exec(Exec(once, a).tree, b).tree);
  }

  /** Renaming `x` to `y`, then `z` to `x`, then both again: the last finds nothing. */
  lemma RenameChain(t: Tree<Bytes>, x: string, y: string, z: string)
    requires WellFormed(t) && IsDir(t, []) && x != y && y != z && x != z
    requires Accepted(x) && Accepted(y) && Accepted(z)
    requires TargetOf(x) == Target([x], false) && TargetOf(y) == Target([y], false) && TargetOf(z) == Target([z], false)
    requires IsFile(t, [x]) && IsFile(t, [z]) && [y] !in t
    ensures var a, b := Command(RenameEntry, x, y, []), Command(RenameEntry, z, x, []);
            var t2 := Exec(Exec(t, a).tree, b).tree;
            [x] in t2 && [x] !in Exec(Exec(t2, a).tree, b).tree && t2 != Exec(t, a).tree
  {
    assert [x][0] == x && [y][0] == y && [z][0] == z;
    FileRenamed(t, x, y);
    var t1 := (t - {[x]})[[y] := t[[x]]];
    FileRenamed(t1, z, x);
    var t2 := (t1 - {[z]})[[x] := t1[[z]]];
    FileRenamed(t2, x, y);
    NothingToRename((t2 - {[x]})[[y] := t2[[x]]], z, x);
    assert [z] in t1 && [z] !in t2;
  }

  lemma NothingToRename(t: Tree<Bytes>, x: string, y: string)
    requires TargetOf(x) == Target([x], false) && [x] !in t
    ensures Exec(t, Command(RenameEntry, x, y, [])).tree == t
  {
    RenameOfNothing(t, TargetOf(x), TargetOf(y));
  }

  lemma RenameOfNothing(t: Tree<Bytes>, o: Target, n: Target)
    requires o.path !in t
    ensures Rename(t, o, n).tree == t
  {
  }

  /** Renaming a file at the top level onto no file or another file. */
  lemma FileRenamed(t: Tree<Bytes>, x: string, y: string)
    requires WellFormed(t) && IsDir(t, []) && x != y && Accepted(x) && Accepted(y)
    requires TargetOf(x) == Target([x], false) && TargetOf(y) == Target([y], false)
    requires IsFile(t, [x]) && !IsDir(t, [y])
    ensures Exec(t, Command(RenameEntry, x, y, [])).tree == (t - {[x]})[[y] := t[[x]]]
    ensures WellFormed(Exec(t, Command(RenameEntry, x, y, [])).tree)
  {
    var c := Command(RenameEntry, x, y, []);
    assert Parent([x]) == [] && Parent([y]) == [];
    assert [x][0] == x && [y][0] == y;
    FileRenames(t, c, [x], [y]);
    ExecKeepsWellFormed(t, c);
  }

  lemma FileRenames(t: Tree<Bytes>, c: Command, o: Path, n: Path)
    requires WellFormed(t) && c.kind.RenameEntry? && Accepts(c) && IsFile(t, o) && !IsDir(t, n)
    requires TargetOf(c.path) == Target(o, false) && TargetOf(c.newPath) == Target(n, false)
    requires o != [] && n != [] && IsDir(t, Parent(o)) && IsDir(t, Parent(n)) && !(o <= n)
    ensures Exec(t, c).tree == (t - {o})[n := t[o]]
  {
    RenameOfFile(t, o, n);
    FileMoved(t, o, n);
  }

  lemma RenameOfFile(t: Tree<Bytes>, o: Path, n: Path)
    requires o != [] && n != [] && IsDir(t, Parent(o)) && IsDir(t, Parent(n)) && !(o <= n)
    requires IsFile(t, o) && !IsDir(t, n)
    ensures Rename(t, Target(o, false), Target(n, false)) == Sys(Move(t, o, n), None)
  {
  }

  lemma FileMoved(t: Tree<Bytes>, o: Path, n: Path)
    requires WellFormed(t) && IsFile(t, o) && !IsDir(t, n) && o != n
    ensures Move(t, o, n) == (t - {o})[n := t[o]]
  {
    NothingBelow(t, o);
    NothingBelow(t, n);
    forall q ensures q in Move(t, o, n) <==> q in (t - {o})[n := t[o]]
      ensures q in Move(t, o, n) ==> Move(t, o, n)[q] == (t - {o})[n := t[o]][q]
    {
      MoveAt(t, o, n, q);
      if n <= q {
        assert q == n + q[|n|..];
        assert o <= o + q[|n|..];
        assert o + [] == o && n + [] == n;
      }
    }
  }

  /** Exactly: a set of kinds is safe to replay if and only if it holds no append, no directory
      command and no rename. */
  lemma ReplaySafeExactly(kinds: set<Kind>)
    ensures ReplaySafe(kinds) <==> forall k :: k in kinds ==> Repeatable(k)
  {
    if forall k :: k in kinds ==> Repeatable(k) {
      forall t: Tree<Bytes>, log: seq<Command>, i: nat, k: nat, left: Option<nat>
        | WellFormed(t) && OfKinds(log, kinds) && i <= k <= |log|
        ensures Replayed(t, log, i, k, left) == Run(t, log)
      {
        ReplayIsHarmless(t, log, i, k, left);
      }
    }
    if ReplaySafe(kinds) {
      forall kind | kind in kinds ensures Repeatable(kind) {
        if !Repeatable(kind) {
          HarmfulKind(kinds, kind);
        }
      }
    }
  }

  lemma HarmfulKind(kinds: set<Kind>, kind: Kind)
    requires kind in kinds && !Repeatable(kind)
    ensures !ReplaySafe(kinds)
  {
    var t, log := HarmfulLog(kind);
    assert OfKinds(log, kinds);
  }

  /** Every other kind has a log that replay harms. */
  lemma HarmfulLog(kind: Kind) returns (t: Tree<Bytes>, log: seq<Command>)
    requires !Repeatable(kind)
    ensures Harm(kind, t, log) && forall j :: 0 <= j < |log| ==> Small(log[j], 1)
  {
    if kind.AppendFile? {
      t, log := AppendsDoNotRepeat([0]);
    } else if kind.CreateDir? {
      t, log := MkdirsDoNotRepeat();
    } else if kind.DeleteDir? {
      t, log := RmdirsDoNotRepeat();
    } else {
      t, log := RenamesDoNotRepeat();
    }
  }
}
