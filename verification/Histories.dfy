/**
  Logs without directory commands and renames, seen file by file: such a log acts on each file on
  its own, through a fold over the entries that reach it.
 */
module Histories {
  import opened Basics
  import opened Paths
  import opened FileTree
  import opened Commands

  /** Kinds that leave the set of directories alone and never move anything. */
  predicate Plain(k: Kind)
  {
    !k.CreateDir? && !k.DeleteDir? && !k.RenameEntry?
  }

  ghost predicate PlainLog(log: seq<Command>)
  {
    forall i :: 0 <= i < |log| ==> Plain(log[i].kind)
  }

  function Put(t: Tree<Bytes>, p: Path, x: Option<Bytes>): Tree<Bytes>
  {
    if x.Some? then t[p := File(x.value)] else t - {p}
  }

  /** The entry reaches the file `p`. */
  predicate Hits(c: Command, p: Path)
  {
    Accepts(c) && TargetOf(c.path) == Target(p, false)
  }

  /** What one entry makes of a file that it reaches. */
  function Next(c: Command, x: Option<Bytes>): Option<Bytes>
  {
    match c.kind
    case CreateFile => Some(Or(x))
    case WriteFile => Some(c.contents)
    case AppendFile => Some(Or(x) + c.contents)
    case DeleteFile => None
    case _ => x
  }

  /** The forward fold of a log over one file. */
  function Fold(x: Option<Bytes>, log: seq<Command>, p: Path): Option<Bytes>
  {
    if log == [] then x
    else
      var before, c := Fold(x, log[..|log| - 1], p), log[|log| - 1];
      if Hits(c, p) then Next(c, before) else before
  }

  /** A file may live at `p`: its directory exists and `p` is not itself a directory. */
  predicate Fileable(t: Tree<Bytes>, p: Path)
  {
    (p == [] || IsDir(t, Parent(p))) && !IsDir(t, p)
  }

  ghost predicate SameDirs(a: Tree<Bytes>, b: Tree<Bytes>)
  {
    forall p :: IsDir(a, p) <==> IsDir(b, p)
  }

  lemma TreesEqual(a: Tree<Bytes>, b: Tree<Bytes>)
    requires SameDirs(a, b)
    requires forall p :: Get(a, p) == Get(b, p)
    ensures a == b
  {
    forall p ensures p in a <==> p in b ensures p in a ==> a[p] == b[p] {
      assert IsDir(a, p) <==> IsDir(b, p);
      assert Get(a, p) == Get(b, p);
    }
  }

  /** A plain command that can reach its file replaces it by `Next`; otherwise it does nothing. */
  lemma PlainExec(t: Tree<Bytes>, c: Command)
    requires WellFormed(t) && Plain(c.kind)
    ensures var g := TargetOf(c.path);
            Exec(t, c).tree ==
              if Accepts(c) && !g.dot && Fileable(t, g.path) then Put(t, g.path, Next(c, Get(t, g.path))) else t
  {
    var g := TargetOf(c.path);
    if Accepts(c) && !g.dot && Fileable(t, g.path) {
      if c.kind.CreateFile? {
        CreateReaches(t, g.path, c);
      } else if c.kind.DeleteFile? {
        DeleteReaches(t, g.path, c);
      } else {
        SaveReaches(t, g.path, c);
      }
    } else {
      OutOfReach(t, c);
    }
  }

  lemma OutOfReach(t: Tree<Bytes>, c: Command)
    requires WellFormed(t) && Plain(c.kind)
    requires !(Accepts(c) && !TargetOf(c.path).dot && Fileable(t, TargetOf(c.path).path))
    ensures Exec(t, c).tree == t
  {
  }

  lemma CreateReaches(t: Tree<Bytes>, p: Path, c: Command)
    requires WellFormed(t) && c.kind.CreateFile? && Hits(c, p) && Fileable(t, p)
    ensures Exec(t, c).tree == Put(t, p, Next(c, Get(t, p)))
  {
    if p in t {
      assert t[p := t[p]] == t;
    }
  }

  lemma DeleteReaches(t: Tree<Bytes>, p: Path, c: Command)
    requires WellFormed(t) && c.kind.DeleteFile? && Hits(c, p) && Fileable(t, p)
    ensures Exec(t, c).tree == Put(t, p, Next(c, Get(t, p)))
  {
    UnlinkReaches(t, p);
    assert Call(t, c, []) == Unlink(t, Target(p, false));
  }

  lemma UnlinkReaches(t: Tree<Bytes>, p: Path)
    requires !IsDir(t, p)
    ensures Unlink(t, Target(p, false)).tree == t - {p}
  {
    if p !in t {
      assert t - {p} == t;
    }
  }

  lemma SaveReaches(t: Tree<Bytes>, p: Path, c: Command)
    requires WellFormed(t) && Writes(c.kind) && Hits(c, p) && Fileable(t, p)
    ensures Exec(t, c).tree == Put(t, p, Next(c, Get(t, p)))
  {
    OpenReaches(t, p, c);
    SavedIsNext(c, Get(t, p));
    UpdatedTwice(t, p, File(Or(Get(t, p))), File(Saved(c, Or(Get(t, p)))));
  }

  lemma SavedIsNext(c: Command, x: Option<Bytes>)
    requires Writes(c.kind)
    ensures Some(Saved(c, Or(x))) == Next(c, x)
  {
    assert [] + c.contents == c.contents;
  }

  lemma OpenReaches(t: Tree<Bytes>, p: Path, c: Command)
    requires WellFormed(t) && Writes(c.kind) && Hits(c, p) && Fileable(t, p)
    ensures Call(t, c, []) == Sys(t[p := File(Or(Get(t, p)))], None)
  {
    if p in t {
      assert t[p := t[p]] == t;
    }
  }

  lemma PutKeepsDirs(t: Tree<Bytes>, p: Path, x: Option<Bytes>)
    requires !IsDir(t, p)
    ensures SameDirs(Put(t, p, x), t)
    ensures Get(Put(t, p, x), p) == x
    ensures forall q :: q != p ==> Get(Put(t, p, x), q) == Get(t, q)
  {
  }

  /** One plain command, file by file. */
  lemma PlainStep(t: Tree<Bytes>, c: Command, p: Path)
    requires WellFormed(t) && Plain(c.kind)
    ensures SameDirs(Exec(t, c).tree, t)
    ensures Get(Exec(t, c).tree, p) == if Hits(c, p) && Fileable(t, p) then Next(c, Get(t, p)) else Get(t, p)
  {
    PlainExec(t, c);
    var g := TargetOf(c.path);
    if Accepts(c) && !g.dot && Fileable(t, g.path) {
      PutKeepsDirs(t, g.path, Next(c, Get(t, g.path)));
    }
  }

  /** A plain log, file by file. */
  lemma {:induction false} PlainRun(t: Tree<Bytes>, log: seq<Command>, p: Path)
    requires WellFormed(t) && PlainLog(log)
    ensures SameDirs(Run(t, log), t)
    ensures Get(Run(t, log), p) == if Fileable(t, p) then Fold(Get(t, p), log, p) else Get(t, p)
  {
    if log != [] {
      var before := log[..|log| - 1];
      PlainRun(t, before, p);
      RunKeepsWellFormed(t, before);
      PlainStep(Run(t, before), log[|log| - 1], p);
      SameDirsFileable(Run(t, before), t, p);
    }
  }

  lemma SameDirsFileable(a: Tree<Bytes>, b: Tree<Bytes>, p: Path)
    requires SameDirs(a, b)
    ensures Fileable(a, p) <==> Fileable(b, p)
  {
  }

  lemma {:induction false} FoldAppend(x: Option<Bytes>, a: seq<Command>, b: seq<Command>, p: Path)
    ensures Fold(x, a + b, p) == Fold(Fold(x, a, p), b, p)
  {
    if b == [] {
      assert a + b == a;
    } else {
      assert (a + b)[..|a + b| - 1] == a + b[..|b| - 1];
      FoldAppend(x, a, b[..|b| - 1], p);
    }
  }

  /* ---------- Contents as last reset plus appends ---------- */

  /** Contents `x` extended by what later entries contribute. */
  function Extended(x: Option<Bytes>, tail: Option<Bytes>): Option<Bytes>
  {
    if x.Some? then Some(x.value + Or(tail)) else tail
  }

  /** A scan from the end of the log that stops at the last entry to replace or remove the file;
      `tail` is what entries after the scanned part contribute, if any of them creates the file. */
  function Scan(x: Option<Bytes>, log: seq<Command>, p: Path, tail: Option<Bytes>): Option<Bytes>
  {
    if log == [] then Extended(x, tail)
    else
      var before, c := log[..|log| - 1], log[|log| - 1];
      if !Hits(c, p) then Scan(x, before, p, tail)
      else match c.kind
        case WriteFile => Some(c.contents + Or(tail))
        case DeleteFile => tail
        case AppendFile => Scan(x, before, p, Some(c.contents + Or(tail)))
        case CreateFile => Scan(x, before, p, Some(Or(tail)))
        case _ => Scan(x, before, p, tail)
  }

  lemma {:induction false} ScanIsFold(x: Option<Bytes>, log: seq<Command>, p: Path, tail: Option<Bytes>)
    requires PlainLog(log)
    ensures Scan(x, log, p, tail) == Extended(Fold(x, log, p), tail)
  {
    if log != [] {
      var before, c := log[..|log| - 1], log[|log| - 1];
      var f := Fold(x, before, p);
      ScanIsFold(x, before, p, tail);
      if c.kind.AppendFile? {
        ScanIsFold(x, before, p, Some(c.contents + Or(tail)));
        assert Or(f) + c.contents + Or(tail) == Or(f) + (c.contents + Or(tail));
        assert [] + (c.contents + Or(tail)) == c.contents + Or(tail);
      } else if c.kind.CreateFile? {
        ScanIsFold(x, before, p, Some(Or(tail)));
        assert [] + Or(tail) == Or(tail);
      }
    }
  }

  /** Content characterization: after any log without renames and directory commands, the bytes at a
      path where a file may live are those of the last reset followed by the later appends. */
  lemma ContentsAreLastResetPlusAppends(t: Tree<Bytes>, log: seq<Command>, p: Path)
    requires WellFormed(t) && PlainLog(log) && Fileable(t, p)
    ensures Get(Run(t, log), p) == Scan(Get(t, p), log, p, None)
  {
    PlainRun(t, log, p);
    ScanIsFold(Get(t, p), log, p, None);
    var f := Fold(Get(t, p), log, p);
    assert f.Some? ==> f.value + [] == f.value;
  }
}
