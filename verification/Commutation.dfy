/**
  The commutation behind per-path locking: file commands whose paths do not lie above one another
  do not see one another.
 */
module Commutation {
  import opened Basics
  import opened Paths
  import opened FileTree
  import opened Commands
  import opened DiskModel
  import opened Histories

  /** The trees agree on `p` and on every directory above it. */
  ghost predicate AgreeOn(a: Tree<Bytes>, b: Tree<Bytes>, p: Path)
  {
    forall k :: 0 <= k <= |p| ==> (p[..k] in a <==> p[..k] in b) && (p[..k] in a ==> a[p[..k]] == b[p[..k]])
  }

  lemma AgreeLookup(a: Tree<Bytes>, b: Tree<Bytes>, g: Target)
    requires AgreeOn(a, b, g.path)
    ensures Present(a, g) <==> Present(b, g)
    ensures CanCreate(a, g) <==> CanCreate(b, g)
    ensures Missing(a, g) == Missing(b, g)
    ensures g.path in a <==> g.path in b
    ensures g.path in a ==> a[g.path] == b[g.path]
  {
    assert g.path[..|g.path|] == g.path;
    assert g.path != [] ==> Parent(g.path) == g.path[..|g.path| - 1];
    assert forall k :: 0 <= k < |g.path| ==> (IsFile(a, g.path[..k]) <==> IsFile(b, g.path[..k]));
  }

  /** A file command looks at nothing but its path and the directories above it. */
  lemma FileCommandIsLocal(a: Tree<Bytes>, b: Tree<Bytes>, c: Command)
    requires Plain(c.kind) && AgreeOn(a, b, TargetOf(c.path).path)
    ensures Exec(a, c).status == Exec(b, c).status
    ensures var p := TargetOf(c.path).path;
            && (p in Exec(a, c).tree <==> p in Exec(b, c).tree)
            && (p in Exec(a, c).tree ==> Exec(a, c).tree[p] == Exec(b, c).tree[p])
  {
    CallIsLocal(a, b, c);
    AgreeLookup(a, b, TargetOf(c.path));
  }

  ghost predicate SameAt(a: Tree<Bytes>, b: Tree<Bytes>, p: Path)
  {
    (p in a <==> p in b) && (p in a ==> a[p] == b[p])
  }

  lemma CallIsLocal(a: Tree<Bytes>, b: Tree<Bytes>, c: Command)
    requires Plain(c.kind) && AgreeOn(a, b, TargetOf(c.path).path)
    ensures Call(a, c, []).err == Call(b, c, []).err
    ensures SameAt(Call(a, c, []).tree, Call(b, c, []).tree, TargetOf(c.path).path)
  {
    var g := TargetOf(c.path);
    CallsAreLocal(a, b, g);
    match c.kind
    case CreateFile => assert Call(a, c, []) == OpenExcl(a, g, []) && Call(b, c, []) == OpenExcl(b, g, []);
    case WriteFile => assert Call(a, c, []) == OpenWrite(a, g, []) && Call(b, c, []) == OpenWrite(b, g, []);
    case AppendFile => assert Call(a, c, []) == OpenWrite(a, g, []) && Call(b, c, []) == OpenWrite(b, g, []);
    case DeleteFile => assert Call(a, c, []) == Unlink(a, g) && Call(b, c, []) == Unlink(b, g);
    case _ =>
  }

  lemma CallsAreLocal(a: Tree<Bytes>, b: Tree<Bytes>, g: Target)
    requires AgreeOn(a, b, g.path)
    ensures SameAt(a, b, g.path)
    ensures OpenExcl(a, g, []).err == OpenExcl(b, g, []).err
    ensures SameAt(OpenExcl(a, g, []).tree, OpenExcl(b, g, []).tree, g.path)
    ensures OpenWrite(a, g, []).err == OpenWrite(b, g, []).err
    ensures SameAt(OpenWrite(a, g, []).tree, OpenWrite(b, g, []).tree, g.path)
    ensures Unlink(a, g).err == Unlink(b, g).err
    ensures SameAt(Unlink(a, g).tree, Unlink(b, g).tree, g.path)
  {
    AgreeLookup(a, b, g);
  }

  /** Each leaves every other path unchanged. */
  lemma FileCommandFrame(t: Tree<Bytes>, c: Command, q: Path)
    requires Plain(c.kind) && q != TargetOf(c.path).path
    ensures q in Exec(t, c).tree <==> q in t
    ensures q in t ==> Exec(t, c).tree[q] == t[q]
  {
    CallIsEdit(t, c, []);
  }

  lemma OthersAgree(t: Tree<Bytes>, c: Command, p: Path)
    requires Plain(c.kind) && !(TargetOf(c.path).path <= p)
    ensures AgreeOn(Exec(t, c).tree, t, p)
  {
    forall k | 0 <= k <= |p|
      ensures (p[..k] in Exec(t, c).tree <==> p[..k] in t) && (p[..k] in t ==> Exec(t, c).tree[p[..k]] == t[p[..k]])
    {
      FileCommandFrame(t, c, p[..k]);
    }
  }

  /** Creates, writes, appends and deletes on paths neither of which lies at or above the other
      commute: same tree, and same status for each, in either order. */
  lemma FileCommandsCommute(t: Tree<Bytes>, a: Command, b: Command)
    requires Plain(a.kind) && Plain(b.kind)
    requires !(TargetOf(a.path).path <= TargetOf(b.path).path) && !(TargetOf(b.path).path <= TargetOf(a.path).path)
    ensures Exec(Exec(t, a).tree, b).tree == Exec(Exec(t, b).tree, a).tree
    ensures Exec(Exec(t, a).tree, b).status == Exec(t, b).status
    ensures Exec(Exec(t, b).tree, a).status == Exec(t, a).status
  {
    var p, q := TargetOf(a.path).path, TargetOf(b.path).path;
    var ta, tb := Exec(t, a).tree, Exec(t, b).tree;
    OthersAgree(t, a, q);
    OthersAgree(t, b, p);
    FileCommandIsLocal(ta, t, b);
    FileCommandIsLocal(tb, t, a);
    var x, y := Exec(ta, b).tree, Exec(tb, a).tree;
    forall r ensures r in x <==> r in y ensures r in x ==> x[r] == y[r] {
      if r != q {
        FileCommandFrame(ta, b, r);
        if r != p {
          FileCommandFrame(t, a, r);
          FileCommandFrame(t, b, r);
          FileCommandFrame(tb, a, r);
        }
      } else {
        FileCommandFrame(tb, a, r);
      }
    }
  }
}
