/**
  Where renames can take a file while a reader has it open.  The reader holds the lock of its own
  raw path only, so a rename may carry the file away as part of a directory, or under another raw
  path, and a write that names its new place reaches it.
 */
module Carrying {
  import opened Basics
  import opened Paths
  import opened FileTree
  import opened Commands

  /** A rename: its raw paths, and whether what it moves is a directory. */
  datatype Shift = Shift(src: string, dst: string, dir: bool)

  /** The rename can succeed beside a reader of `p` and take the file at `pos` along: it needs neither
      the reader's lock nor one lock twice, and moves the file itself or a directory above it. */
  predicate Carries(m: Shift, p: string, pos: Path)
  {
    var o, n := TargetOf(m.src), TargetOf(m.dst);
    && Accepted(m.src) && Accepted(m.dst) && m.src != p && m.dst != p && m.src != m.dst
    && !o.dot && !n.dot && !(o.path <= n.path) && !(n.path <= o.path)
    && (if m.dir then o.path < pos else o.path == pos)
  }

  /** The new place of the file. */
  function Carried(m: Shift, pos: Path): Path
    requires |TargetOf(m.src).path| <= |pos|
  {
    TargetOf(m.dst).path + pos[|TargetOf(m.src).path|..]
  }

  /** Where a chain of renames takes the file that the raw path `p` denotes. */
  function Place(p: string, chain: seq<Shift>): Option<Path>
  {
    if chain == [] then Some(TargetOf(p).path)
    else
      match Place(p, chain[..|chain| - 1])
      case None => None
      case Some(pos) =>
        var m := chain[|chain| - 1];
        if Carries(m, p, pos) then Some(Carried(m, pos)) else None
  }

  ghost predicate Among(chain: seq<Shift>, shifts: set<Shift>)
  {
    forall j :: 0 <= j < |chain| ==> chain[j] in shifts
  }

  ghost predicate Reaches(shifts: set<Shift>, p: string, pos: Path)
  {
    exists chain :: Among(chain, shifts) && Place(p, chain) == Some(pos)
  }

  /** A write to `q` can reach the file that a reader of `p` has open, and the reader's lock does not
      stop it.  The empty chain makes this include two raw paths of one file. */
  ghost predicate Clash(shifts: set<Shift>, p: string, q: string)
  {
    && Accepted(p) && Accepted(q) && p != q && !TargetOf(p).dot && !TargetOf(q).dot
    && Reaches(shifts, p, TargetOf(q).path)
  }

  lemma ReachesStart(shifts: set<Shift>, p: string)
    ensures Reaches(shifts, p, TargetOf(p).path)
  {
    var chain: seq<Shift> := [];
    assert Among(chain, shifts) && Place(p, chain) == Some(TargetOf(p).path);
  }

  lemma ReachesNext(shifts: set<Shift>, p: string, pos: Path, m: Shift)
    requires Reaches(shifts, p, pos) && m in shifts && Carries(m, p, pos)
    ensures Reaches(shifts, p, Carried(m, pos))
  {
    var chain :| Among(chain, shifts) && Place(p, chain) == Some(pos);
    var longer := chain + [m];
    assert longer[..|longer| - 1] == chain;
    assert Among(longer, shifts) && Place(p, longer) == Some(Carried(m, pos));
  }

  /** A file that no rename of the set can take away stays. */
  lemma {:induction false} StaysPut(shifts: set<Shift>, p: string, chain: seq<Shift>)
    requires forall m :: m in shifts ==> !Carries(m, p, TargetOf(p).path)
    requires Among(chain, shifts) && Place(p, chain).Some?
    ensures chain == []
  {
    if chain != [] {
      assert chain[|chain| - 1] in shifts;
      StaysPut(shifts, p, chain[..|chain| - 1]);
    }
  }

  /** The renames of a log, each with what it finds at its old path. */
  ghost function Shifts(t: Tree<Bytes>, log: seq<Command>): set<Shift>
  {
    set k | 0 <= k < |log| && log[k].kind.RenameEntry? :: ShiftOf(Run(t, log[..k]), log[k])
  }

  function ShiftOf<F>(t: Tree<F>, c: Command): Shift
  {
    Shift(c.path, c.newPath, IsDir(t, TargetOf(c.path).path))
  }
}
