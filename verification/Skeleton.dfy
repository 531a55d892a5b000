/**
  The smallest trees that hold one file, and logs that take the file along a chain of renames: make
  the directories above the new name, rename, remove the directories left behind.  Each such log
  keeps the tree as small as it was, so the next rename of the chain finds nothing in its way.
 */
module Skeleton {
  import opened Basics
  import opened Paths
  import opened FileTree
  import opened Commands
  import opened DiskModel
  import opened Trails
  import opened Carrying

  /* ---------- Trees of one file ---------- */

  /** The first `j` prefixes of a path, beginning with the base. */
  function Prefixes(x: Path, j: nat): set<Path>
    requires j <= |x| + 1
  {
    set k | 0 <= k < j :: x[..k]
  }

  /** One file at `pos` with the directories above it, and `j` more directories towards `x`. */
  function Skel<F>(pos: Path, f: F, x: Path, j: nat): Tree<F>
    requires j <= |x|
  {
    map q | q in Prefixes(pos, |pos| + 1) + Prefixes(x, j) :: SkelNode(pos, f, q)
  }

  function SkelNode<F>(pos: Path, f: F, q: Path): Node<F>
  {
    if q == pos then File(f) else Dir
  }

  /** Nothing but the file and the directories above it. */
  function Bare<F>(pos: Path, f: F): Tree<F>
  {
    Skel(pos, f, [], 0)
  }

  lemma PrefixesAre(x: Path, j: nat, q: Path)
    requires j <= |x| + 1
    ensures q in Prefixes(x, j) <==> q <= x && |q| < j
  {
    if q <= x && |q| < j {
      assert q == x[..|q|];
    }
  }

  lemma SkelAt<F>(pos: Path, f: F, x: Path, j: nat, q: Path)
    requires j <= |x|
    ensures q in Skel(pos, f, x, j) <==> q <= pos || (q <= x && |q| < j)
    ensures q in Skel(pos, f, x, j) ==> Skel(pos, f, x, j)[q] == if q == pos then File(f) else Dir
  {
    PrefixesAre(pos, |pos| + 1, q);
    PrefixesAre(x, j, q);
  }

  lemma SkelsEqual<F>(pos: Path, f: F, x: Path, j: nat, t: Tree<F>)
    requires j <= |x|
    requires forall q :: q in t <==> q <= pos || (q <= x && |q| < j)
    requires forall q :: q in t ==> t[q] == if q == pos then File(f) else Dir
    ensures t == Skel(pos, f, x, j)
  {
    forall q ensures q in t <==> q in Skel(pos, f, x, j) ensures q in t ==> t[q] == Skel(pos, f, x, j)[q] {
      SkelAt(pos, f, x, j, q);
    }
  }

  /** The base alone adds nothing. */
  lemma BareIsSkel<F>(pos: Path, f: F, x: Path, j: nat)
    requires j <= 1 && j <= |x|
    ensures Skel(pos, f, x, j) == Bare(pos, f)
  {
    forall q ensures q in Skel(pos, f, x, j) <==> q <= pos
      ensures q in Skel(pos, f, x, j) ==> Skel(pos, f, x, j)[q] == if q == pos then File(f) else Dir
    {
      SkelAt(pos, f, x, j, q);
    }
    SkelsEqual(pos, f, [], 0, Skel(pos, f, x, j));
  }

  lemma BareIsValid(pos: Path, b: Bytes)
    ensures ValidDisk(Disk(Bare(pos, 0), [b]))
    ensures IsFile(Bare(pos, 0), pos) && Bare(pos, 0)[pos].f == 0
  {
    var t := Bare(pos, 0);
    forall q ensures q in t <==> q <= pos ensures q in t ==> t[q] == if q == pos then File(0) else Dir {
      SkelAt(pos, 0, [], 0, q);
    }
    forall q | q in t && q != [] ensures Parent(q) in t && t[Parent(q)].Dir? {
      assert Parent(q) <= pos && |Parent(q)| < |pos|;
    }
  }

  /* ---------- One call on such a tree ---------- */

  lemma MkdirSkel<F>(pos: Path, f: F, x: Path, j: nat)
    requires 1 <= j < |x| && !(pos <= x)
    ensures Mkdir(Skel(pos, f, x, j), Target(x[..j], false)).tree == Skel(pos, f, x, j + 1)
  {
    var t, p := Skel(pos, f, x, j), x[..j];
    SkelAt(pos, f, x, j, p);
    SkelAt(pos, f, x, j, x[..j - 1]);
    assert Parent(p) == x[..j - 1] && p <= x;
    var t' := Mkdir(t, Target(p, false)).tree;
    assert p in t ==> p <= pos;
    forall q ensures q in t' <==> q <= pos || (q <= x && |q| < j + 1)
      ensures q in t' ==> t'[q] == if q == pos then File(f) else Dir
    {
      SkelAt(pos, f, x, j, q);
      assert q <= x && |q| == j ==> q == p;
    }
    SkelsEqual(pos, f, x, j + 1, t');
  }

  lemma RmdirSkel<F>(pos: Path, f: F, x: Path, j: nat)
    requires 2 <= j <= |x| && !(pos <= x)
    ensures Rmdir(Skel(pos, f, x, j), Target(x[..j - 1], false)).tree == Skel(pos, f, x, j - 1)
  {
    var t, p := Skel(pos, f, x, j), x[..j - 1];
    SkelAt(pos, f, x, j, p);
    assert p <= x && p != pos;
    LeafOrAbove(pos, f, x, j);
    var t' := Rmdir(t, Target(p, false)).tree;
    forall q ensures q in t' <==> q <= pos || (q <= x && |q| < j - 1)
      ensures q in t' ==> t'[q] == if q == pos then File(f) else Dir
    {
      SkelAt(pos, f, x, j, q);
      assert q <= x && |q| == j - 1 ==> q == p;
    }
    SkelsEqual(pos, f, x, j - 1, t');
  }

  /** The last directory towards `x` has a child exactly if the file is below it. */
  lemma LeafOrAbove<F>(pos: Path, f: F, x: Path, j: nat)
    requires 2 <= j <= |x| && !(pos <= x)
    ensures HasChild(Skel(pos, f, x, j), x[..j - 1]) <==> x[..j - 1] <= pos
  {
    var t, p := Skel(pos, f, x, j), x[..j - 1];
    if p <= pos {
      assert p != pos;
      var child := pos[..j];
      SkelAt(pos, f, x, j, child);
      assert child in t && Parent(child) == p;
    }
    if HasChild(t, p) {
      var q :| q in t && q != [] && Parent(q) == p;
      SkelAt(pos, f, x, j, q);
    }
  }

  /** Where the entries of a moved skeleton are. */
  lemma MovedSkelAt<F>(pos: Path, f: F, o: Path, n: Path, q: Path)
    requires o <= pos && !(o <= n) && !(n <= o)
    ensures var t', pos' := Move(Skel(pos, f, n, |n|), o, n), n + pos[|o|..];
            && (q in t' <==> q <= pos' || (q <= o && |q| < |o|))
            && (q in t' ==> t'[q] == if q == pos' then File(f) else Dir)
  {
    var t, pos' := Skel(pos, f, n, |n|), n + pos[|o|..];
    MoveAt(t, o, n, q);
    SkelAt(pos, f, n, |n|, q);
    if n <= q {
      var r := q[|n|..];
      assert q == n + r && o <= o + r;
      SkelAt(pos, f, n, |n|, o + r);
      SuffixUnder(o, r, pos);
      SuffixUnder(n, r, pos');
      assert pos'[|n|..] == pos[|o|..];
    } else {
      UnderEither(o, n, pos, q);
    }
  }

  lemma SuffixUnder(o: Path, r: Path, pos: Path)
    requires o <= pos
    ensures o + r <= pos <==> r <= pos[|o|..]
    ensures o + r == pos <==> r == pos[|o|..]
  {
    assert pos == o + pos[|o|..];
    if o + r <= pos {
      assert pos[..|o + r|] == o + r;
      assert r == pos[|o|..][..|r|];
    }
  }

  /** Off the new name, a prefix of the old or the new place is a prefix of the old or the new name. */
  lemma UnderEither(o: Path, n: Path, pos: Path, q: Path)
    requires o <= pos && !(o <= n) && !(n <= o) && !(n <= q)
    ensures var pos' := n + pos[|o|..];
            && ((q <= pos || q < n) && !(o <= q) <==> q <= pos' || (q <= o && |q| < |o|))
            && q != pos'
  {
    var pos' := n + pos[|o|..];
    assert n <= pos';
    if q <= pos && !(o <= q) {
      PrefixesCompare(q, o, pos);
    }
    if q <= pos' {
      PrefixesCompare(q, n, pos');
    }
  }

  lemma RenameSkel<F>(pos: Path, f: F, o: Path, n: Path)
    requires o <= pos && !(o <= n) && !(n <= o)
    ensures Rename(Skel(pos, f, n, |n|), Target(o, false), Target(n, false))
         == Sys(Skel(n + pos[|o|..], f, o, |o|), None)
  {
    var t, t' := Skel(pos, f, n, |n|), Move(Skel(pos, f, n, |n|), o, n);
    RenameHasRoom(pos, f, o, n);
    forall q ensures q in t' <==> q <= n + pos[|o|..] || (q <= o && |q| < |o|)
      ensures q in t' ==> t'[q] == if q == n + pos[|o|..] then File(f) else Dir
    {
      MovedSkelAt(pos, f, o, n, q);
    }
    SkelsEqual(n + pos[|o|..], f, o, |o|, t');
  }

  lemma RenameHasRoom<F>(pos: Path, f: F, o: Path, n: Path)
    requires o <= pos && !(o <= n) && !(n <= o)
    ensures var t := Skel(pos, f, n, |n|);
            Rename(t, Target(o, false), Target(n, false)) == Sys(Move(t, o, n), None)
  {
    var t := Skel(pos, f, n, |n|);
    SkelAt(pos, f, n, |n|, o);
    SkelAt(pos, f, n, |n|, n);
    SkelAt(pos, f, n, |n|, Parent(o));
    SkelAt(pos, f, n, |n|, Parent(n));
    if n <= pos {
      PrefixesCompare(o, n, pos);
    }
    assert n !in t;
    assert Parent(o) <= o && Parent(n) <= n;
  }

  /* ---------- Raw paths of directories ---------- */

  lemma {:induction false} DropDotsKeeps(cs: seq<string>)
    ensures forall c :: c in DropDots(cs) ==> c in cs && c != "."
  {
    if cs != [] {
      DropDotsKeeps(cs[..|cs| - 1]);
    }
  }

  lemma {:induction false} DropDotsShortens(cs: seq<string>)
    ensures |Join(DropDots(cs))| <= |Join(cs)|
  {
    if cs != [] {
      var before, last := cs[..|cs| - 1], cs[|cs| - 1];
      DropDotsShortens(before);
      assert cs == before + [last];
      JoinSnoc(before, last);
      JoinSnoc(DropDots(before), last);
    }
  }

  lemma TargetIsPlain(raw: string)
    requires Accepted(raw)
    ensures Plainly(TargetOf(raw).path)
  {
    var cs := Components(raw);
    DropDotsKeeps(cs);
    DropDotsShortens(cs);
    ComponentsAreNames(raw);
    SafeComponents(raw);
    NormalizeShortens(raw);
    forall i | 0 <= i < |DropDots(cs)|
      ensures IsName(DropDots(cs)[i]) && SafeField(DropDots(cs)[i]) && DropDots(cs)[i] != "."
    {
      assert DropDots(cs)[i] in cs;
      var j :| 0 <= j < |cs| && cs[j] == DropDots(cs)[i];
    }
  }

  lemma {:induction false} JoinOfPrefix(cs: Path, k: nat)
    requires k <= |cs|
    ensures |Join(cs[..k])| <= |Join(cs)|
    decreases |cs|
  {
    if k < |cs| {
      var before := cs[..|cs| - 1];
      assert cs == before + [cs[|cs| - 1]] && cs[..k] == before[..k];
      JoinSnoc(before, cs[|cs| - 1]);
      JoinOfPrefix(before, k);
    } else {
      assert cs[..k] == cs;
    }
  }

  lemma PlainPrefix(cs: Path, k: nat)
    requires Plainly(cs) && 1 <= k <= |cs|
    ensures Accepted(Join(cs[..k])) && TargetOf(Join(cs[..k])) == Target(cs[..k], false)
  {
    JoinOfPrefix(cs, k);
    PlainPath(cs[..k]);
  }

  /* ---------- Logs that follow a chain ---------- */

  function MakeDir(x: Path, k: nat): Command
    requires k <= |x|
  {
    Command(CreateDir, Join(x[..k]), "", [])
  }

  function DropDir(x: Path, k: nat): Command
    requires k <= |x|
  {
    Command(DeleteDir, Join(x[..k]), "", [])
  }

  function RenameBy(m: Shift): Command
  {
    Command(RenameEntry, m.src, m.dst, [])
  }

  /** A directory command, or a rename of the chain that keeps off the lock of `p`. */
  ghost predicate InScript(c: Command, p: string, chain: seq<Shift>)
  {
    && Accepts(c)
    && (c.kind.CreateDir? || c.kind.DeleteDir? || (c.kind.RenameEntry? && InChain(c, p, chain)))
  }

  ghost predicate InChain(c: Command, p: string, chain: seq<Shift>)
  {
    && c.path != p && c.newPath != p && c.path != c.newPath
    && exists j :: 0 <= j < |chain| && chain[j].src == c.path && chain[j].dst == c.newPath
  }

  ghost predicate Script(log: seq<Command>, p: string, chain: seq<Shift>)
  {
    forall k :: 0 <= k < |log| ==> InScript(log[k], p, chain)
  }

  lemma ScriptSnoc(log: seq<Command>, p: string, chain: seq<Shift>, c: Command)
    requires Script(log, p, chain) && InScript(c, p, chain)
    ensures Script(log + [c], p, chain)
  {
  }

  lemma CallsSnoc(d: Disk, log: seq<Command>, c: Command)
    ensures Calls(d, log + [c]) == DiskCall(Calls(d, log), c)
  {
    assert (log + [c])[..|log|] == log;
  }

  /** One more directory command. */
  lemma Extended(d: Disk, before: seq<Command>, p: string, chain: seq<Shift>, c: Command, g: Target, after: Tree<Inode>)
    requires Script(before, p, chain) && Accepted(c.path) && TargetOf(c.path) == g
    requires || (c.kind.CreateDir? && after == Mkdir(Calls(d, before).tree, g).tree)
             || (c.kind.DeleteDir? && after == Rmdir(Calls(d, before).tree, g).tree)
    ensures Script(before + [c], p, chain) && Calls(d, before + [c]).tree == after
  {
    ScriptSnoc(before, p, chain, c);
    CallsSnoc(d, before, c);
    DirCalls(Calls(d, before), c, g);
  }

  lemma MakesOne(d: Disk, before: seq<Command>, p: string, chain: seq<Shift>, pos: Path, i: Inode, x: Path, j: nat)
    requires Script(before, p, chain) && Plainly(x) && 1 <= j < |x| && !(pos <= x)
    requires Calls(d, before).tree == Skel(pos, i, x, j)
    ensures Script(before + [MakeDir(x, j)], p, chain)
    ensures Calls(d, before + [MakeDir(x, j)]).tree == Skel(pos, i, x, j + 1)
  {
    PlainPrefix(x, j);
    MkdirSkel(pos, i, x, j);
    Extended(d, before, p, chain, MakeDir(x, j), Target(x[..j], false), Skel(pos, i, x, j + 1));
  }

  lemma DropsOne(d: Disk, before: seq<Command>, p: string, chain: seq<Shift>, pos: Path, i: Inode, x: Path, j: nat)
    requires Script(before, p, chain) && Plainly(x) && 2 <= j <= |x| && !(pos <= x)
    requires Calls(d, before).tree == Skel(pos, i, x, j)
    ensures Script(before + [DropDir(x, j - 1)], p, chain)
    ensures Calls(d, before + [DropDir(x, j - 1)]).tree == Skel(pos, i, x, j - 1)
  {
    PlainPrefix(x, j - 1);
    RmdirSkel(pos, i, x, j);
    Extended(d, before, p, chain, DropDir(x, j - 1), Target(x[..j - 1], false), Skel(pos, i, x, j - 1));
  }

  /** Making the directories above `x`, one by one. */
  lemma {:induction false} MakesDirs(d: Disk, before: seq<Command>, p: string, chain: seq<Shift>,
                                     pos: Path, i: Inode, x: Path, j: nat)
      returns (log: seq<Command>)
    requires Script(before, p, chain) && Plainly(x) && 1 <= j <= |x| && !(pos <= x)
    requires Calls(d, before).tree == Skel(pos, i, x, j)
    ensures Script(log, p, chain) && Calls(d, log).tree == Skel(pos, i, x, |x|)
    decreases |x| - j
  {
    log := before;
    if j < |x| {
      MakesOne(d, before, p, chain, pos, i, x, j);
      log := MakesDirs(d, before + [MakeDir(x, j)], p, chain, pos, i, x, j + 1);
    }
  }

  /** Removing the directories above `x` that are not above the file, the deepest first. */
  lemma {:induction false} DropsDirs(d: Disk, before: seq<Command>, p: string, chain: seq<Shift>,
                                     pos: Path, i: Inode, x: Path, j: nat)
      returns (log: seq<Command>)
    requires Script(before, p, chain) && Plainly(x) && 1 <= j <= |x| && !(pos <= x)
    requires Calls(d, before).tree == Skel(pos, i, x, j)
    ensures Script(log, p, chain) && Calls(d, log).tree == Bare(pos, i)
    decreases j
  {
    log := before;
    if j == 1 {
      BareIsSkel(pos, i, x, 1);
    } else {
      DropsOne(d, before, p, chain, pos, i, x, j);
      log := DropsDirs(d, before + [DropDir(x, j - 1)], p, chain, pos, i, x, j - 1);
    }
  }

  lemma RenameInScript(p: string, chain: seq<Shift>, m: Shift, pos: Path)
    requires m in chain && Carries(m, p, pos)
    ensures InScript(RenameBy(m), p, chain)
  {
    var j :| 0 <= j < |chain| && chain[j] == m;
    assert chain[j].src == RenameBy(m).path && chain[j].dst == RenameBy(m).newPath;
  }

  /** One rename of the chain. */
  lemma Follows(d: Disk, before: seq<Command>, p: string, chain: seq<Shift>, pos: Path, i: Inode, m: Shift)
      returns (log: seq<Command>)
    requires Script(before, p, chain) && m in chain && Carries(m, p, pos) && Calls(d, before).tree == Bare(pos, i)
    ensures Script(log, p, chain) && Calls(d, log).tree == Bare(Carried(m, pos), i)
  {
    var o, n := TargetOf(m.src).path, TargetOf(m.dst).path;
    TargetIsPlain(m.src);
    TargetIsPlain(m.dst);
    BareIsSkel(pos, i, n, 1);
    var made := MakesDirs(d, before, p, chain, pos, i, n, 1);
    RenameInScript(p, chain, m, pos);
    ScriptSnoc(made, p, chain, RenameBy(m));
    CallsSnoc(d, made, RenameBy(m));
    RenameCall(Calls(d, made), RenameBy(m));
    RenameSkel(pos, i, o, n);
    log := made + [RenameBy(m)];
    log := DropsDirs(d, log, p, chain, Carried(m, pos), i, o, |o|);
  }

  lemma {:induction false} FollowsChain(d: Disk, p: string, chain: seq<Shift>, i: Inode) returns (log: seq<Command>)
    requires Place(p, chain).Some? && d.tree == Bare(TargetOf(p).path, i)
    ensures Script(log, p, chain) && Calls(d, log).tree == Bare(Place(p, chain).value, i)
    decreases |chain|
  {
    log := [];
    if chain != [] {
      var before, m := chain[..|chain| - 1], chain[|chain| - 1];
      log := FollowsChain(d, p, before, i);
      ScriptGrows(log, p, before, chain);
      log := Follows(d, log, p, chain, Place(p, before).value, i, m);
    }
  }

  lemma ScriptGrows(log: seq<Command>, p: string, before: seq<Shift>, chain: seq<Shift>)
    requires Script(log, p, before) && before <= chain
    ensures Script(log, p, chain)
  {
    forall k | 0 <= k < |log| ensures InScript(log[k], p, chain) {
      assert InScript(log[k], p, before);
    }
  }
}
