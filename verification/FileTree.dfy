/**
  The directory tree under the storage base, and the system calls that src/storage.cc issues on
  it, with their results from IEEE Std 1003.1-2017 (System Interfaces).

  A tree maps sequences of names to nodes; the empty sequence is the base directory itself.  The
  type of what a file node carries is a parameter: bytes in the atomic semantics, an inode number
  on the disk that concurrent operations share.
 */
module FileTree {
  import opened Basics
  import opened Paths

  type Path = seq<string>

  datatype Node<F> = Dir | File(f: F)

  type Tree<F> = map<Path, Node<F>>

  datatype Errno = ENOENT | ENOTDIR | EEXIST | EISDIR | ENOTEMPTY | EINVAL

  /** A system call: the tree it leaves, and the error it reports, if any. */
  datatype Sys<F> = Sys(tree: Tree<F>, err: Option<Errno>)

  function Parent(p: Path): Path
    requires p != []
  {
    p[..|p| - 1]
  }

  /** Every entry other than the base lies in a directory. */
  ghost predicate WellFormed<F>(t: Tree<F>)
  {
    forall p :: p in t && p != [] ==> Parent(p) in t && t[Parent(p)].Dir?
  }

  /* ---------- Path lookup ---------- */

  predicate IsDir<F>(t: Tree<F>, p: Path)
  {
    p in t && t[p].Dir?
  }

  predicate IsFile<F>(t: Tree<F>, p: Path)
  {
    p in t && t[p].File?
  }

  predicate FileAbove<F>(t: Tree<F>, p: Path)
  {
    exists k :: 0 <= k < |p| && IsFile(t, p[..k])
  }

  predicate HasChild<F>(t: Tree<F>, p: Path)
  {
    exists q :: q in t && q != [] && Parent(q) == p
  }

  predicate Present<F>(t: Tree<F>, g: Target)
  {
    g.path in t && (g.dot ==> IsDir(t, g.path))
  }

  /** The directory in which the last name is looked up exists.  The base's own parent always does. */
  predicate ParentOk<F>(t: Tree<F>, g: Target)
  {
    if g.dot then IsDir(t, g.path) else g.path == [] || IsDir(t, Parent(g.path))
  }

  predicate CanCreate<F>(t: Tree<F>, g: Target)
  {
    !g.dot && g.path !in t && ParentOk(t, g)
  }

  /** The error for a target that cannot be reached. */
  function Missing<F>(t: Tree<F>, g: Target): Errno
  {
    if FileAbove(t, g.path) || (g.dot && IsFile(t, g.path)) then ENOTDIR else ENOENT
  }

  /* ---------- System calls ---------- */

  /** open(O_CREAT | O_EXCL | O_WRONLY) */
  function OpenExcl<F>(t: Tree<F>, g: Target, empty: F): Sys<F>
  {
    if Present(t, g) then Sys(t, Some(EEXIST))
    else if CanCreate(t, g) then Sys(t[g.path := File(empty)], None)
    else Sys(t, Some(Missing(t, g)))
  }

  /** open(O_WRONLY | O_CREAT), whatever happens to the contents */
  function OpenWrite<F>(t: Tree<F>, g: Target, empty: F): Sys<F>
  {
    if Present(t, g) then Sys(t, if t[g.path].Dir? then Some(EISDIR) else None)
    else if CanCreate(t, g) then Sys(t[g.path := File(empty)], None)
    else Sys(t, Some(Missing(t, g)))
  }

  function Mkdir<F>(t: Tree<F>, g: Target): Sys<F>
  {
    if Present(t, g) then Sys(t, Some(EEXIST))
    else if CanCreate(t, g) then Sys(t[g.path := Dir], None)
    else Sys(t, Some(Missing(t, g)))
  }

  function Unlink<F>(t: Tree<F>, g: Target): Sys<F>
  {
    if !Present(t, g) then Sys(t, Some(Missing(t, g)))
    else if t[g.path].Dir? then Sys(t, Some(EISDIR))
    else Sys(t - {g.path}, None)
  }

  function Rmdir<F>(t: Tree<F>, g: Target): Sys<F>
  {
    if !Present(t, g) then Sys(t, Some(Missing(t, g)))
    else if t[g.path].File? then Sys(t, Some(ENOTDIR))
    else if g.dot then Sys(t, Some(EINVAL))
    else if HasChild(t, g.path) then Sys(t, Some(ENOTEMPTY))
    else Sys(t - {g.path}, None)
  }

  /** The tree with everything at or below `o` put at `n`, whatever was at `n` replaced. */
  function Move<F>(t: Tree<F>, o: Path, n: Path): Tree<F>
  {
    var moved := set q | q in t && o <= q :: n + q[|o|..];
    var kept := set q | q in t && !(o <= q) && q != n;
    map q | q in moved + kept :: if q in moved then t[Source(t, o, n, moved, q)] else t[q]
  }

  /** Where a moved entry came from. */
  function Source<F>(t: Tree<F>, o: Path, n: Path, moved: set<Path>, q: Path): (s: Path)
    requires moved == set x | x in t && o <= x :: n + x[|o|..]
    requires q in moved
    ensures s in t
  {
    assert forall x | x in t && o <= x :: o + (n + x[|o|..])[|n|..] == x;
    o + q[|n|..]
  }

  /** Membership and contents of a moved tree, entry by entry. */
  lemma MoveAt<F>(t: Tree<F>, o: Path, n: Path, q: Path)
    ensures q in Move(t, o, n) <==> (n <= q && o + q[|n|..] in t) || (q in t && !(o <= q) && q != n)
    ensures q in Move(t, o, n) ==> Move(t, o, n)[q] == if n <= q && o + q[|n|..] in t then t[o + q[|n|..]] else t[q]
  {
    var moved := set x | x in t && o <= x :: n + x[|o|..];
    if n <= q && o + q[|n|..] in t {
      var x := o + q[|n|..];
      assert o <= x && n + x[|o|..] == q;
      assert q in moved;
    }
    if q in moved {
      var x :| x in t && o <= x && n + x[|o|..] == q;
      assert q[|n|..] == x[|o|..];
      assert o + q[|n|..] == x;
    }
  }

  /** What stops the new name from being replaced, if anything. */
  function Obstacle<F>(t: Tree<F>, o: Path, n: Path): Option<Errno>
    requires o in t
  {
    if n !in t then None
    else if t[o].File? then (if t[n].Dir? then Some(EISDIR) else None)
    else if t[n].File? then Some(ENOTDIR)
    else if HasChild(t, n) then Some(ENOTEMPTY)
    else None
  }

  function Rename<F>(t: Tree<F>, o: Target, n: Target): Sys<F>
  {
    if !ParentOk(t, o) then Sys(t, Some(Missing(t, o)))
    else if !ParentOk(t, n) then Sys(t, Some(Missing(t, n)))
    else if o.dot || n.dot then Sys(t, Some(EINVAL))
    else if o.path !in t then Sys(t, Some(ENOENT))
    else if o.path == n.path then Sys(t, None)
    else if o.path <= n.path then Sys(t, Some(EINVAL))
    else if Obstacle(t, o.path, n.path).Some? then Sys(t, Obstacle(t, o.path, n.path))
    else Sys(Move(t, o.path, n.path), None)
  }

  lemma UpdatedTwice<F>(t: Tree<F>, p: Path, x: Node<F>, y: Node<F>)
    ensures t[p := x][p := y] == t[p := y]
    ensures x != y ==> t[p := x] != t[p := y]
  {
    assert t[p := x][p] == x && t[p := y][p] == y;
  }

  /* ---------- Well-formedness ---------- */

  /** Every prefix of an entry is a directory entry; so a tree without a base is empty. */
  lemma {:induction false} AncestorsAreDirs<F>(t: Tree<F>, p: Path, k: nat)
    requires WellFormed(t) && p in t && k < |p|
    ensures IsDir(t, p[..k])
    decreases |p|
  {
    assert IsDir(t, Parent(p));
    if k < |p| - 1 {
      AncestorsAreDirs(t, Parent(p), k);
      assert Parent(p)[..k] == p[..k];
    }
  }

  lemma BaseAbsentOnlyWhenEmpty<F>(t: Tree<F>)
    requires WellFormed(t)
    ensures [] !in t <==> t == map[]
    ensures IsFile(t, []) ==> t.Keys == {[]}
  {
    forall p | p in t && p != [] ensures IsDir(t, []) {
      AncestorsAreDirs(t, p, 0);
    }
    if [] !in t {
      assert t.Keys == {};
    }
  }

  lemma BelowMeansChild<F>(t: Tree<F>, n: Path, q: Path)
    requires WellFormed(t) && q in t && n <= q && q != n
    ensures IsDir(t, n) && HasChild(t, n)
  {
    AncestorsAreDirs(t, q, |n|);
    assert q[..|n|] == n;
    var child := q[..|n| + 1];
    if child != q {
      AncestorsAreDirs(t, q, |n| + 1);
    }
    assert child in t && Parent(child) == n;
  }

  /** Only a directory has anything strictly below it. */
  lemma NothingBelow<F>(t: Tree<F>, n: Path)
    requires WellFormed(t)
    requires n !in t || t[n].File? || !HasChild(t, n)
    ensures forall q :: q in t && n <= q ==> q == n
  {
    forall q | q in t && n <= q ensures q == n {
      if q != n {
        BelowMeansChild(t, n, q);
      }
    }
  }

  lemma PutKeepsWellFormed<F>(t: Tree<F>, g: Target, node: Node<F>)
    requires WellFormed(t) && CanCreate(t, g)
    ensures WellFormed(t[g.path := node])
  {
    NothingBelow(t, g.path);
  }

  lemma RemoveKeepsWellFormed<F>(t: Tree<F>, p: Path)
    requires WellFormed(t) && p in t
    requires t[p].File? || !HasChild(t, p)
    ensures WellFormed(t - {p})
  {
    NothingBelow(t, p);
  }

  /** A rename that reached the move has room at the new name. */
  ghost predicate Movable<F>(t: Tree<F>, o: Path, n: Path)
  {
    && o in t && !(o <= n)
    && (n == [] || IsDir(t, Parent(n)))
    && (n in t ==> t[n].File? || !HasChild(t, n))
  }

  lemma RenameReachesMove<F>(t: Tree<F>, o: Target, n: Target)
    requires WellFormed(t)
    requires Rename(t, o, n).err == None && o.path != n.path
    ensures Rename(t, o, n).tree == Move(t, o.path, n.path)
    ensures Movable(t, o.path, n.path) && !(n.path <= o.path)
  {
    if n.path <= o.path && n.path != o.path {
      AncestorsAreDirs(t, o.path, |n.path|);
      assert o.path[..|n.path|] == n.path;
      NothingBelow(t, n.path);
    }
  }

  /** What is where after a move: the subtree arrives whole, its old place and what was at the new
      name are gone, and everything else stays. */
  lemma MoveContents<F>(t: Tree<F>, o: Path, n: Path)
    requires WellFormed(t) && Movable(t, o, n) && !(n <= o)
    ensures forall r: Path :: n + r in Move(t, o, n) <==> o + r in t
    ensures forall r: Path :: o + r in t ==> Move(t, o, n)[n + r] == t[o + r]
    ensures forall q :: q in Move(t, o, n) ==> !(o <= q)
    ensures forall q :: !(o <= q) && !(n <= q) ==> (q in Move(t, o, n) <==> q in t)
    ensures forall q :: !(o <= q) && !(n <= q) && q in t ==> Move(t, o, n)[q] == t[q]
  {
    NothingBelow(t, n);
    forall r: Path ensures n + r in Move(t, o, n) <==> o + r in t
      ensures o + r in t ==> Move(t, o, n)[n + r] == t[o + r]
    {
      assert (n + r)[|n|..] == r && n <= n + r;
      MoveAt(t, o, n, n + r);
    }
    forall q ensures q in Move(t, o, n) ==> !(o <= q) {
      MoveAt(t, o, n, q);
      if o <= q && n <= q {
        PrefixesCompare(o, n, q);
      }
    }
    forall q | !(o <= q) && !(n <= q)
      ensures q in Move(t, o, n) <==> q in t
      ensures q in t ==> Move(t, o, n)[q] == t[q]
    {
      MoveAt(t, o, n, q);
    }
  }

  lemma PrefixesCompare(a: Path, b: Path, q: Path)
    requires a <= q && b <= q
    ensures a <= b || b <= a
  {
    assert a == q[..|a|] && b == q[..|b|];
  }

  lemma PrefixOfParent(a: Path, q: Path)
    requires q != []
    ensures a <= Parent(q) ==> a <= q
    ensures a <= q && a != q ==> a <= Parent(q)
  {
  }

  lemma MoveKeepsWellFormed<F>(t: Tree<F>, o: Path, n: Path)
    requires WellFormed(t) && Movable(t, o, n) && !(n <= o)
    ensures WellFormed(Move(t, o, n))
  {
    forall q | q in Move(t, o, n) && q != [] ensures IsDir(Move(t, o, n), Parent(q)) {
      MovedParent(t, o, n, q);
    }
  }

  lemma MovedParent<F>(t: Tree<F>, o: Path, n: Path, q: Path)
    requires WellFormed(t) && Movable(t, o, n) && !(n <= o)
    requires q in Move(t, o, n) && q != []
    ensures IsDir(Move(t, o, n), Parent(q))
  {
    if n <= q && n != q {
      ParentArrives(t, o, n, q);
    } else {
      ParentStays(t, o, n, q);
    }
  }

  /** Below the new name, the parent arrived with its entry. */
  lemma ParentArrives<F>(t: Tree<F>, o: Path, n: Path, q: Path)
    requires WellFormed(t) && Movable(t, o, n) && !(n <= o)
    requires q in Move(t, o, n) && n <= q && n != q
    ensures IsDir(Move(t, o, n), Parent(q))
  {
    NothingBelow(t, n);
    MoveAt(t, o, n, q);
    var r := q[|n|..];
    assert Parent(o + r) == o + Parent(r) && Parent(q)[|n|..] == Parent(r);
    MoveAt(t, o, n, Parent(q));
  }

  /** Elsewhere, and at the new name itself, the parent is where it was. */
  lemma ParentStays<F>(t: Tree<F>, o: Path, n: Path, q: Path)
    requires WellFormed(t) && Movable(t, o, n) && !(n <= o)
    requires q in Move(t, o, n) && q != [] && !(n <= q && n != q)
    ensures IsDir(Move(t, o, n), Parent(q))
  {
    var p := Parent(q);
    MoveAt(t, o, n, q);
    PrefixOfParent(o, q);
    PrefixOfParent(n, q);
    assert IsDir(t, p) && !(o <= p) && !(n <= p);
    MoveAt(t, o, n, p);
  }
}
