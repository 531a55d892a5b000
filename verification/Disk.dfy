/**
  The disk that operations share: names lead to inodes, and open descriptors keep using an inode
  whatever happens to its name.  `View` forgets the inodes.
 */
module DiskModel {
  import opened Basics
  import opened Paths
  import opened FileTree
  import opened Commands

  type Inode = nat

  datatype Disk = Disk(tree: Tree<Inode>, data: seq<Bytes>)

  function Content(d: Disk, i: Inode): Bytes
  {
    if i < |d.data| then d.data[i] else []
  }

  function View(d: Disk): Tree<Bytes>
  {
    map p | p in d.tree :: NodeView(d, d.tree[p])
  }

  function NodeView(d: Disk, node: Node<Inode>): Node<Bytes>
  {
    match node case Dir => Dir case File(i) => File(Content(d, i))
  }

  /** Names lead to allocated inodes, and no two names to the same one. */
  ghost predicate ValidDisk(d: Disk)
  {
    && WellFormed(d.tree)
    && (forall p :: IsFile(d.tree, p) ==> d.tree[p].f < |d.data|)
    && (forall p, q :: IsFile(d.tree, p) && IsFile(d.tree, q) && d.tree[p].f == d.tree[q].f ==> p == q)
  }

  /** The disk with one more inode, holding nothing. */
  function Grown(d: Disk, tree: Tree<Inode>): Disk
  {
    Disk(tree, d.data + [[]])
  }

  /** The system call of an accepted command; inode number |d.data| is set aside for a new file,
      and O_TRUNC empties an existing one. */
  function DiskCall(d: Disk, c: Command): Disk
  {
    var r := Call(d.tree, c, |d.data|);
    if r.err.None? then Truncated(Grown(d, r.tree), c) else Grown(d, r.tree)
  }

  function DiskErr(d: Disk, c: Command): Option<Errno>
  {
    Call(d.tree, c, |d.data|).err
  }

  function Truncated(d: Disk, c: Command): Disk
  {
    var p := TargetOf(c.path).path;
    if c.kind.WriteFile? && IsFile(d.tree, p) && d.tree[p].f < |d.data|
    then d.(data := d.data[d.tree[p].f := []])
    else d
  }

  /** Bytes `b` with `chunk` written at offset `at`; a gap reads as zeros. */
  function Overlay(b: Bytes, at: nat, chunk: Bytes): Bytes
  {
    if at <= |b| then b[..at] + chunk + (if at + |chunk| < |b| then b[at + |chunk|..] else [])
    else b + Zeros(at - |b|) + chunk
  }

  function Zeros(n: nat): Bytes
  {
    if n == 0 then [] else Zeros(n - 1) + [0]
  }

  /** write(2) on an open descriptor: at its offset, or at the end under O_APPEND. */
  function WriteChunk(d: Disk, i: Inode, append: bool, at: nat, chunk: Bytes): Disk
    requires i < |d.data|
  {
    var b := d.data[i];
    d.(data := d.data[i := Overlay(b, if append then |b| else at, chunk)])
  }

  /* ---------- The view of a call is the call on the view ---------- */

  lemma ViewShape(d: Disk)
    ensures View(d).Keys == d.tree.Keys
    ensures forall p :: IsDir(View(d), p) <==> IsDir(d.tree, p)
    ensures forall p :: IsFile(View(d), p) <==> IsFile(d.tree, p)
    ensures forall p :: IsFile(d.tree, p) ==> View(d)[p] == File(Content(d, d.tree[p].f))
    ensures forall p :: FileAbove(View(d), p) <==> FileAbove(d.tree, p)
    ensures forall p :: HasChild(View(d), p) <==> HasChild(d.tree, p)
    ensures WellFormed(View(d)) <==> WellFormed(d.tree)
  {
    var v := View(d);
    forall p ensures FileAbove(v, p) <==> FileAbove(d.tree, p) {
      assert forall k :: 0 <= k < |p| ==> (IsFile(v, p[..k]) <==> IsFile(d.tree, p[..k]));
    }
    forall p ensures HasChild(v, p) <==> HasChild(d.tree, p) {
      assert forall q :: q in v <==> q in d.tree;
    }
    assert forall p :: p in v && p != [] ==> (IsDir(v, Parent(p)) <==> IsDir(d.tree, Parent(p)));
  }

  lemma ViewLookup(d: Disk, g: Target)
    ensures Present(View(d), g) <==> Present(d.tree, g)
    ensures ParentOk(View(d), g) <==> ParentOk(d.tree, g)
    ensures CanCreate(View(d), g) <==> CanCreate(d.tree, g)
    ensures Missing(View(d), g) == Missing(d.tree, g)
  {
    ViewShape(d);
  }

  lemma GrownNode(d: Disk, tree: Tree<Inode>, node: Node<Inode>)
    requires node.File? ==> node.f < |d.data|
    ensures NodeView(Grown(d, tree), node) == NodeView(d, node)
  {
  }

  /** Replacing the tree by one with the same entries, apart from `p`. */
  lemma ViewEdit(d: Disk, tree: Tree<Inode>, p: Path)
    requires ValidDisk(d)
    requires forall q :: q != p ==> (q in tree <==> q in d.tree) && (q in d.tree ==> tree[q] == d.tree[q])
    ensures forall q :: q in View(Grown(d, tree)) <==> q in tree
    ensures forall q :: q != p && q in d.tree ==> View(Grown(d, tree))[q] == View(d)[q]
  {
    forall q | q in d.tree ensures NodeView(Grown(d, tree), d.tree[q]) == NodeView(d, d.tree[q]) {
      assert d.tree[q].File? ==> IsFile(d.tree, q);
      GrownNode(d, tree, d.tree[q]);
    }
  }

  lemma ViewSame(d: Disk)
    requires ValidDisk(d)
    ensures View(Grown(d, d.tree)) == View(d)
  {
    forall q | q in d.tree ensures NodeView(Grown(d, d.tree), d.tree[q]) == NodeView(d, d.tree[q]) {
      assert d.tree[q].File? ==> IsFile(d.tree, q);
      GrownNode(d, d.tree, d.tree[q]);
    }
  }

  lemma ViewPut(d: Disk, p: Path, node: Node<Inode>)
    requires ValidDisk(d)
    ensures View(Grown(d, d.tree[p := node])) == View(d)[p := NodeView(Grown(d, d.tree), node)]
  {
    var tree := d.tree[p := node];
    ViewEdit(d, tree, p);
    assert NodeView(Grown(d, tree), node) == NodeView(Grown(d, d.tree), node);
    UpdatedAt(View(d), View(Grown(d, tree)), p, NodeView(Grown(d, tree), node));
  }

  lemma UpdatedAt(v: Tree<Bytes>, w: Tree<Bytes>, p: Path, x: Node<Bytes>)
    requires p in w && w[p] == x
    requires forall q :: q != p ==> (q in w <==> q in v)
    requires forall q :: q != p && q in v ==> w[q] == v[q]
    ensures w == v[p := x]
  {
  }

  lemma ViewRemove(d: Disk, p: Path)
    requires ValidDisk(d)
    ensures View(Grown(d, d.tree - {p})) == View(d) - {p}
  {
    ViewEdit(d, d.tree - {p}, p);
  }

  lemma ViewMove(d: Disk, o: Path, n: Path)
    requires ValidDisk(d)
    ensures View(Grown(d, Move(d.tree, o, n))) == Move(View(d), o, n)
  {
    var v, tree' := View(d), Move(d.tree, o, n);
    forall q ensures q in tree' <==> q in Move(v, o, n)
      ensures q in tree' ==> NodeView(Grown(d, tree'), tree'[q]) == Move(v, o, n)[q]
    {
      MoveAt(d.tree, o, n, q);
      MoveAt(v, o, n, q);
      if q in tree' {
        var s := if n <= q && o + q[|n|..] in d.tree then o + q[|n|..] else q;
        assert d.tree[s].File? ==> IsFile(d.tree, s);
        GrownNode(d, tree', d.tree[s]);
      }
    }
  }

  lemma ViewRename(d: Disk, o: Target, n: Target)
    requires ValidDisk(d)
    ensures Rename(d.tree, o, n).err == Rename(View(d), o, n).err
    ensures View(Grown(d, Rename(d.tree, o, n).tree)) == Rename(View(d), o, n).tree
  {
    ViewRenameError(d, o, n);
    if Renames(d.tree, o, n) {
      ViewMove(d, o.path, n.path);
    } else {
      ViewSame(d);
    }
  }

  /** The rename succeeds and moves something. */
  predicate Renames<F>(t: Tree<F>, o: Target, n: Target)
  {
    Rename(t, o, n).err.None? && o.path != n.path
  }

  /** A rename moves something or leaves the tree alone. */
  lemma RenameIsMove<F>(t: Tree<F>, o: Target, n: Target)
    ensures Rename(t, o, n).tree == if Renames(t, o, n) then Move(t, o.path, n.path) else t
  {
  }

  lemma ViewRenameError(d: Disk, o: Target, n: Target)
    ensures Rename(d.tree, o, n).err == Rename(View(d), o, n).err
    ensures Rename(d.tree, o, n).tree == if Renames(d.tree, o, n) then Move(d.tree, o.path, n.path) else d.tree
    ensures Rename(View(d), o, n).tree == if Renames(d.tree, o, n) then Move(View(d), o.path, n.path) else View(d)
  {
    ViewReach(d, o);
    ViewReach(d, n);
    assert o.path in View(d) <==> o.path in d.tree;
    if o.path in d.tree {
      ViewObstacle(d, o.path, n.path);
    }
  }

  lemma ViewReach(d: Disk, g: Target)
    ensures ParentOk(View(d), g) <==> ParentOk(d.tree, g)
    ensures Missing(View(d), g) == Missing(d.tree, g)
  {
    ViewLookup(d, g);
  }

  lemma ViewObstacle(d: Disk, o: Path, n: Path)
    requires o in d.tree
    ensures Obstacle(d.tree, o, n) == Obstacle(View(d), o, n)
  {
    ViewShape(d);
    assert IsFile(View(d), o) <==> IsFile(d.tree, o);
    assert IsFile(View(d), n) <==> IsFile(d.tree, n);
  }

  lemma ViewCall(d: Disk, c: Command)
    requires ValidDisk(d)
    ensures Call(d.tree, c, |d.data|).err == Call(View(d), c, []).err
    ensures View(Grown(d, Call(d.tree, c, |d.data|).tree)) == Call(View(d), c, []).tree
  {
    match c.kind
    case RenameEntry => ViewRename(d, TargetOf(c.path), TargetOf(c.newPath));
    case DeleteFile => ViewRemoval(d, TargetOf(c.path));
    case DeleteDir => ViewRemoval(d, TargetOf(c.path));
    case _ => ViewCreation(d, TargetOf(c.path));
  }

  lemma ViewCreation(d: Disk, g: Target)
    requires ValidDisk(d)
    ensures View(Grown(d, d.tree)) == View(d)
    ensures var a, b := OpenExcl(d.tree, g, |d.data|), OpenExcl(View(d), g, []);
            a.err == b.err && View(Grown(d, a.tree)) == b.tree
    ensures var a, b := OpenWrite(d.tree, g, |d.data|), OpenWrite(View(d), g, []);
            a.err == b.err && View(Grown(d, a.tree)) == b.tree
    ensures var a, b := Mkdir(d.tree, g), Mkdir(View(d), g);
            a.err == b.err && View(Grown(d, a.tree)) == b.tree
  {
    ViewLookup(d, g);
    ViewSame(d);
    ViewPut(d, g.path, Dir);
    ViewPut(d, g.path, File(|d.data|));
    assert g.path in d.tree ==> (View(d)[g.path].Dir? <==> d.tree[g.path].Dir?);
  }

  lemma ViewRemoval(d: Disk, g: Target)
    requires ValidDisk(d)
    ensures var a, b := Unlink(d.tree, g), Unlink(View(d), g);
            a.err == b.err && View(Grown(d, a.tree)) == b.tree
    ensures var a, b := Rmdir(d.tree, g), Rmdir(View(d), g);
            a.err == b.err && View(Grown(d, a.tree)) == b.tree
  {
    ViewLookup(d, g);
    ViewSame(d);
    ViewRemove(d, g.path);
    ViewShape(d);
    assert g.path in d.tree ==> (View(d)[g.path].Dir? <==> d.tree[g.path].Dir?);
  }

  lemma GrownIsValid(d: Disk, tree: Tree<Inode>)
    requires ValidDisk(d) && WellFormed(tree)
    requires forall p :: IsFile(tree, p) ==> tree[p].f <= |d.data|
    requires forall p, q :: IsFile(tree, p) && IsFile(tree, q) && tree[p].f == tree[q].f ==> p == q
    ensures ValidDisk(Grown(d, tree))
  {
  }

  lemma MoveKeepsInodes(d: Disk, o: Path, n: Path)
    requires ValidDisk(d) && Movable(d.tree, o, n) && !(n <= o)
    ensures ValidDisk(Grown(d, Move(d.tree, o, n)))
  {
    var t' := Move(d.tree, o, n);
    MoveKeepsWellFormed(d.tree, o, n);
    forall p | IsFile(t', p) ensures IsFile(d.tree, Origin(o, n, p)) && t'[p] == d.tree[Origin(o, n, p)] {
      MoveOrigin(d.tree, o, n, p);
    }
    forall p, q | IsFile(t', p) && IsFile(t', q) && t'[p].f == t'[q].f ensures p == q {
      MoveOrigin(d.tree, o, n, p);
      MoveOrigin(d.tree, o, n, q);
    }
  }

  /** The path that an entry of the moved tree had before. */
  function Origin(o: Path, n: Path, q: Path): Path
  {
    if n <= q then o + q[|n|..] else q
  }

  lemma MoveOrigin<F>(t: Tree<F>, o: Path, n: Path, q: Path)
    requires WellFormed(t) && Movable(t, o, n) && !(n <= o) && q in Move(t, o, n)
    ensures Origin(o, n, q) in t && t[Origin(o, n, q)] == Move(t, o, n)[q]
    ensures o <= Origin(o, n, q) <==> n <= q
    ensures n <= q ==> q == n + Origin(o, n, q)[|o|..]
  {
    MoveAt(t, o, n, q);
    NothingBelow(t, n);
    if n <= q {
      assert q == n + q[|n|..];
      assert (o + q[|n|..])[|o|..] == q[|n|..];
      if o <= q {
        PrefixesCompare(o, n, q);
      }
    }
  }

  lemma CallKeepsInodes(d: Disk, c: Command)
    requires ValidDisk(d)
    ensures ValidDisk(Grown(d, Call(d.tree, c, |d.data|).tree))
  {
    if c.kind.RenameEntry? {
      RenameKeepsInodes(d, TargetOf(c.path), TargetOf(c.newPath));
      CallOfRename(d.tree, c, |d.data|);
    } else {
      EditCallKeepsInodes(d, c);
    }
  }

  lemma EditCallKeepsInodes(d: Disk, c: Command)
    requires ValidDisk(d) && !c.kind.RenameEntry?
    ensures ValidDisk(Grown(d, Call(d.tree, c, |d.data|).tree))
  {
    CallKeepsWellFormed(d.tree, c, |d.data|);
    CallIsEdit(d.tree, c, |d.data|);
    EditKeepsInodes(d, Call(d.tree, c, |d.data|).tree, TargetOf(c.path).path);
  }

  lemma RenameKeepsInodes(d: Disk, o: Target, n: Target)
    requires ValidDisk(d)
    ensures ValidDisk(Grown(d, Rename(d.tree, o, n).tree))
  {
    RenameIsMove(d.tree, o, n);
    if Renames(d.tree, o, n) {
      RenameReachesMove(d.tree, o, n);
      MoveKeepsInodes(d, o.path, n.path);
    } else {
      GrownIsValid(d, d.tree);
    }
  }

  /** Every call but a rename changes at most the entry it names. */
  ghost predicate Edit<F>(t: Tree<F>, t': Tree<F>, p: Path, empty: F)
  {
    && (forall q :: q != p ==> (q in t' <==> q in t) && (q in t ==> t'[q] == t[q]))
    && (p in t' ==> t'[p] == Dir || t'[p] == File(empty) || (p in t && t'[p] == t[p]))
  }

  lemma CallIsEdit<F>(t: Tree<F>, c: Command, empty: F)
    requires !c.kind.RenameEntry?
    ensures Edit(t, Call(t, c, empty).tree, TargetOf(c.path).path, empty)
  {
    var g, r := TargetOf(c.path), Call(t, c, empty);
    EditsOf(t, g, empty);
    assert || r == OpenExcl(t, g, empty) || r == OpenWrite(t, g, empty) || r == Mkdir(t, g)
           || r == Unlink(t, g) || r == Rmdir(t, g) || r == Sys(t, None);
  }

  lemma EditsOf<F>(t: Tree<F>, g: Target, empty: F)
    ensures Edit(t, t, g.path, empty)
    ensures Edit(t, OpenExcl(t, g, empty).tree, g.path, empty)
    ensures Edit(t, OpenWrite(t, g, empty).tree, g.path, empty)
    ensures Edit(t, Mkdir(t, g).tree, g.path, empty)
    ensures Edit(t, Unlink(t, g).tree, g.path, empty)
    ensures Edit(t, Rmdir(t, g).tree, g.path, empty)
  {
    assert Edit(t, t[g.path := File(empty)], g.path, empty);
    assert Edit(t, t[g.path := Dir], g.path, empty);
    assert Edit(t, t - {g.path}, g.path, empty);
  }

  lemma EditKeepsInodes(d: Disk, tree: Tree<Inode>, p: Path)
    requires ValidDisk(d) && WellFormed(tree) && Edit(d.tree, tree, p, |d.data|)
    ensures ValidDisk(Grown(d, tree))
  {
    forall q | IsFile(tree, q) ensures tree[q].f == |d.data| || (IsFile(d.tree, q) && tree[q] == d.tree[q]) {
    }
    GrownIsValid(d, tree);
  }

  /** Changing the contents of one inode changes the view at its one name. */
  lemma ViewStore(d: Disk, p: Path, b: Bytes)
    requires ValidDisk(d) && IsFile(d.tree, p)
    ensures var d' := d.(data := d.data[d.tree[p].f := b]);
            ValidDisk(d') && View(d') == View(d)[p := File(b)]
  {
    var i := d.tree[p].f;
    var d' := d.(data := d.data[i := b]);
    forall q | q in d.tree ensures View(d')[q] == View(d)[p := File(b)][q] {
      if IsFile(d.tree, q) && q != p {
        assert d.tree[q].f != i;
      }
    }
  }

  /** The view after the system call: the atomic call, with a rewritten file emptied. */
  lemma ViewDiskCall(d: Disk, c: Command)
    requires ValidDisk(d)
    ensures ValidDisk(DiskCall(d, c))
    ensures DiskErr(d, c) == Call(View(d), c, []).err
    ensures var p, r := TargetOf(c.path).path, Call(View(d), c, []);
            View(DiskCall(d, c)) == if c.kind.WriteFile? && r.err.None? then r.tree[p := File([])] else r.tree
  {
    ViewCall(d, c);
    CallKeepsInodes(d, c);
    var r := Call(d.tree, c, |d.data|);
    if c.kind.WriteFile? && r.err.None? {
      assert IsFile(r.tree, TargetOf(c.path).path);
      ViewStore(Grown(d, r.tree), TargetOf(c.path).path, []);
    }
  }

  lemma OverlayAtEnd(b: Bytes, chunk: Bytes)
    ensures Overlay(b, |b|, chunk) == b + chunk
  {
    assert b[..|b|] == b;
  }

  lemma OpenLeadsToFile<F>(t: Tree<F>, c: Command, empty: F)
    requires Writes(c.kind) && Call(t, c, empty).err.None?
    ensures IsFile(Call(t, c, empty).tree, TargetOf(c.path).path)
  {
  }

  /** An open for writing that succeeds leads to a file, and writing the buffer to it would finish
      the command. */
  lemma OpenedForWriting(d: Disk, c: Command)
    requires ValidDisk(d) && Writes(c.kind) && DiskErr(d, c).None?
    ensures var d', p, r := DiskCall(d, c), TargetOf(c.path).path, Call(View(d), c, []);
            && ValidDisk(d') && IsFile(d'.tree, p) && r.err.None?
            && (c.kind.WriteFile? ==> d'.data[d'.tree[p].f] == [])
            && View(d')[p := File(d'.data[d'.tree[p].f] + c.contents)] == Fill(r.tree, p, c)
  {
    var d', p, r := DiskCall(d, c), TargetOf(c.path).path, Call(View(d), c, []);
    ViewDiskCall(d, c);
    OpenLeadsToFile(d.tree, c, |d.data|);
    OpenLeadsToFile(View(d), c, []);
    assert d'.tree == Call(d.tree, c, |d.data|).tree;
    var held := d'.data[d'.tree[p].f];
    assert View(d')[p] == NodeView(d', d'.tree[p]) == File(held);
    Refilled(View(d'), r.tree, p, held, c);
  }

  lemma Refilled(v: Tree<Bytes>, t: Tree<Bytes>, p: Path, held: Bytes, c: Command)
    requires Writes(c.kind) && IsFile(t, p) && p in v && v[p] == File(held)
    requires v == if c.kind.WriteFile? then t[p := File([])] else t
    ensures c.kind.WriteFile? ==> held == []
    ensures v[p := File(held + c.contents)] == Fill(t, p, c)
  {
    assert Saved(c, t[p].f) == held + c.contents;
  }

  /** One write(2) that continues at the end of the file. */
  lemma ChunkWritten(d: Disk, p: Path, append: bool, at: nat, chunk: Bytes)
    requires ValidDisk(d) && IsFile(d.tree, p)
    requires !append ==> |d.data[d.tree[p].f]| == at
    ensures var d', b := WriteChunk(d, d.tree[p].f, append, at, chunk), d.data[d.tree[p].f];
            && ValidDisk(d') && d'.tree == d.tree
            && d'.data[d.tree[p].f] == b + chunk
            && View(d') == View(d)[p := File(b + chunk)]
  {
    var b := d.data[d.tree[p].f];
    OverlayAtEnd(b, chunk);
    ViewStore(d, p, b + chunk);
  }

  /* ---------- Calls that touch no contents ---------- */

  lemma RenameCall(d: Disk, c: Command)
    requires c.kind.RenameEntry?
    ensures var r := Rename(d.tree, TargetOf(c.path), TargetOf(c.newPath));
            DiskCall(d, c) == Grown(d, r.tree) && DiskErr(d, c) == r.err
  {
  }

  lemma DirCalls(d: Disk, c: Command, g: Target)
    requires TargetOf(c.path) == g
    ensures c.kind.CreateDir? ==> DiskCall(d, c).tree == Mkdir(d.tree, g).tree
    ensures c.kind.DeleteDir? ==> DiskCall(d, c).tree == Rmdir(d.tree, g).tree
  {
  }
}
