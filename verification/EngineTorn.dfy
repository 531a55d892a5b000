/**
  The condition of read atomicity is needed.  A reader is left between open(2) and fstat(2) while
  the applier rewrites the open file under another lock key and is stopped after the first byte of
  two: the reader returns that byte, which the file held neither before nor after.

  This module has such runs for every disk that holds the file: when two raw paths denote it, and
  when a directory above it is renamed.
 */
module EngineTorn {
  import opened Basics
  import opened Paths
  import opened FileTree
  import opened Commands
  import opened DiskModel
  import opened Locks
  import opened Engine
  import opened Trails
  import opened Commutation

  /** The raw path denotes a file. */
  ghost predicate Named(d: Disk, p: string)
  {
    ValidDisk(d) && Accepted(p) && !TargetOf(p).dot && IsFile(d.tree, TargetOf(p).path)
  }

  function InodeOf(d: Disk, p: string): Inode
    requires IsFile(d.tree, TargetOf(p).path)
  {
    d.tree[TargetOf(p).path].f
  }

  /* ---------- The reader ---------- */

  /** One reader, no waiters, nothing happened yet. */
  function Fresh(d: Disk, p: string, log: seq<Command>): State
  {
    State(View(d), log, [Reader(p, NotCalled)], [], map[], d, 0, [], Fetching)
  }

  /** The reader somewhere in `read_file`, nothing else moved. */
  function At(d: Disk, p: string, log: seq<Command>, pc: ReaderPc): State
  {
    Fresh(d, p, log).(readers := [Reader(p, pc)],
                      table := if pc.NotCalled? || pc.Locking? then map[] else map[p := LockState(1, false)])
  }

  lemma LockStep(d: Disk, p: string, log: seq<Command>)
    requires Accepted(p)
    ensures Linked(At(d, p, log, NotCalled), CallRead(0), At(d, p, log, Locking(0, Awake)))
    ensures Linked(At(d, p, log, Locking(0, Awake)), TryRead(0), At(d, p, log, Opening(0)))
  {
  }

  lemma OpenStep(d: Disk, p: string, log: seq<Command>)
    requires Named(d, p)
    ensures Linked(At(d, p, log, Opening(0)), OpenRead(0), At(d, p, log, Statting(0, 0, InodeOf(d, p))))
  {
  }

  /** The reader has the file open and has not looked at its size. */
  function Opened(d: Disk, p: string, log: seq<Command>): State
    requires IsFile(d.tree, TargetOf(p).path)
  {
    At(d, p, log, Statting(0, 0, InodeOf(d, p)))
  }

  lemma ReaderOpens(d: Disk, p: string, log: seq<Command>) returns (t: Trail)
    requires Named(d, p)
    ensures Leads(t, Fresh(d, p, log), Opened(d, p, log))
  {
    var s0, s1, s2 := At(d, p, log, NotCalled), At(d, p, log, Locking(0, Awake)), At(d, p, log, Opening(0));
    LockStep(d, p, log);
    OpenStep(d, p, log);
    t := Trail([s0], []);
    t := Then(s0, t, s0, CallRead(0), s1);
    t := Then(s0, t, s1, TryRead(0), s2);
    t := Then(s0, t, s2, OpenRead(0), Opened(d, p, log));
  }

  lemma StatStep(s: State, inode: Inode)
    requires |s.readers| == 1 && s.readers[0].pc == Statting(0, 0, inode) && |Content(s.disk, inode)| == 1
    ensures Linked(s, StatRead(0), SetReader(s, 0, Reading(0, 0, inode, 1, [])))
  {
  }

  lemma ReadStep(s: State, inode: Inode)
    requires |s.readers| == 1 && s.readers[0].pc == Reading(0, 0, inode, 1, []) && |Content(s.disk, inode)| == 1
    ensures Linked(s, ReadSome(0, 1), SetReader(s, 0, Reading(0, 0, inode, 1, Content(s.disk, inode))))
  {
    var b := Content(s.disk, inode);
    assert [] + b[0..0 + 1] == b;
  }

  /** A reader that finds one byte returns it. */
  lemma ReaderEnds(s0: State, t: Trail, s: State, inode: Inode) returns (u: Trail, s': State)
    requires Leads(t, s0, s) && |s.readers| == 1 && s.readers[0].pc == Statting(0, 0, inode)
    requires |Content(s.disk, inode)| == 1
    ensures Leads(u, s0, s') && |s'.readers| == 1 && s'.readers[0].pc.Returned?
    ensures s'.readers[0].pc.result == Ok(Content(s.disk, inode)) && s'.readers[0].path == s.readers[0].path
  {
    var s1 := SetReader(s, 0, Reading(0, 0, inode, 1, []));
    var s2 := SetReader(s1, 0, Reading(0, 0, inode, 1, Content(s.disk, inode)));
    StatStep(s, inode);
    u := Then(s0, t, s, StatRead(0), s1);
    ReadStep(s1, inode);
    u := Then(s0, u, s1, ReadSome(0, 1), s2);
    u, s' := ReaderLeaves(s0, u, s2);
  }

  lemma ReaderLeaves(s0: State, t: Trail, s: State) returns (u: Trail, s': State)
    requires Leads(t, s0, s) && |s.readers| == 1
    requires s.readers[0].pc.Reading? && |s.readers[0].pc.got| >= s.readers[0].pc.size
    ensures Leads(u, s0, s') && |s'.readers| == 1 && s'.readers[0].pc.Returned?
    ensures s'.readers[0].pc.result == Ok(s.readers[0].pc.got) && s'.readers[0].path == s.readers[0].path
  {
    var m := Do(s, ReadEnd(0));
    s' := Do(m, DropRead(0));
    u := Then(s0, t, s, ReadEnd(0), m);
    u := Then(s0, u, m, DropRead(0), s');
  }

  /* ---------- The writer ---------- */

  function OverwriteWith(q: string, x: Byte, y: Byte): Command
  {
    Command(WriteFile, q, "", [x, y])
  }

  /** The command overwrites the file at `path` with two bytes. */
  predicate Overwrites(c: Command, path: Path, x: Byte)
  {
    && c.kind.WriteFile? && Accepted(c.path) && TargetOf(c.path) == Target(path, false)
    && |c.contents| == 2 && c.contents[0] == x
  }

  /** The applier truncates the file and writes the first byte. */
  lemma WriterCutsIn(s0: State, t: Trail, s: State, path: Path, x: Byte) returns (u: Trail, s': State)
    requires Leads(t, s0, s) && ValidDisk(s.disk) && IsFile(s.disk.tree, path) && Ready(s)
    requires Overwrites(Current(s), path, x)
    ensures Leads(u, s0, s') && s'.readers == s.readers
    ensures Content(s'.disk, s.disk.tree[path].f) == [x]
  {
    var inode := s.disk.tree[path].f;
    var s1 := s.(table := Locked(s.table, LockPlan(Current(s))), pc := Calling);
    u := LocksTaken(s0, t, s);
    TruncateStep(s1, path, x);
    var s2 := s1.(disk := DiskCall(s1.disk, Current(s1)), pc := Writing(inode, 0));
    u := Then(s0, u, s1, Issue, s2);
    FirstByteStep(s2, x);
    s' := Do(s2, WriteSome(1));
    u := Then(s0, u, s2, WriteSome(1), s');
  }

  lemma TruncateStep(s: State, path: Path, x: Byte)
    requires Busy(s) && s.pc == Calling && ValidDisk(s.disk) && IsFile(s.disk.tree, path)
    requires Overwrites(Current(s), path, x)
    ensures var d', inode := DiskCall(s.disk, Current(s)), s.disk.tree[path].f;
            && Linked(s, Issue, s.(disk := d', pc := Writing(inode, 0)))
            && inode < |d'.data| && d'.data[inode] == []
  {
    CallTruncates(s.disk, Current(s), path);
    OpenedStep(s, path);
  }

  /** The applier has opened an existing file for writing. */
  lemma OpenedStep(s: State, path: Path)
    requires Busy(s) && s.pc == Calling && Accepts(Current(s)) && Writes(Current(s).kind)
    requires TargetOf(Current(s).path).path == path && DiskErr(s.disk, Current(s)).None?
    requires IsFile(DiskCall(s.disk, Current(s)).tree, path)
    ensures var d' := DiskCall(s.disk, Current(s));
            Linked(s, Issue, s.(disk := d', pc := Writing(d'.tree[path].f, 0)))
  {
  }

  lemma CallTruncates(d: Disk, c: Command, path: Path)
    requires ValidDisk(d) && IsFile(d.tree, path) && c.kind.WriteFile? && TargetOf(c.path) == Target(path, false)
    ensures var d' := DiskCall(d, c);
            DiskErr(d, c).None? && d'.tree == d.tree && d.tree[path].f < |d'.data| && d'.data[d.tree[path].f] == []
  {
  }

  lemma FirstByteStep(s: State, x: Byte)
    requires Busy(s) && s.pc.Writing? && s.pc.written == 0 && s.pc.inode < |s.disk.data|
    requires s.disk.data[s.pc.inode] == [] && Current(s).kind.WriteFile?
    requires |Current(s).contents| == 2 && Current(s).contents[0] == x
    ensures Enabled(s, WriteSome(1)) && Do(s, WriteSome(1)).readers == s.readers
    ensures Content(Do(s, WriteSome(1)).disk, s.pc.inode) == [x]
  {
    assert Current(s).contents[0..0 + 1] == [x];
    assert Overlay([], 0, [x]) == [x];
  }

  /* ---------- Torn reads ---------- */

  /** The only reader has returned something that no prefix of the log explains. */
  ghost predicate Torn(s0: State, actions: seq<Action>)
  {
    var r := Execute(s0, actions);
    && r.Some? && |r.value.readers| == 1 && r.value.readers[0].pc.Returned?
    && Unexplained(s0.origin, s0.log, r.value.readers[0].path, r.value.readers[0].pc.result)
  }

  /** No prefix of the log gives this result of reading `p`. */
  ghost predicate Unexplained(t: Tree<Bytes>, log: seq<Command>, p: string, result: Result<Bytes>)
  {
    forall k :: 0 <= k <= |log| ==> result != ReadOf(Run(t, log[..k]), p)
  }

  /** The reader waits with its file open; the applier is at the entry that overwrites it. */
  lemma CutIn(s0: State, t: Trail, s: State, p: string, inode: Inode, path: Path, x: Byte) returns (xs: seq<Action>)
    requires Leads(t, s0, s) && ValidDisk(s.disk) && Ready(s) && Overwrites(Current(s), path, x)
    requires IsFile(s.disk.tree, path) && s.disk.tree[path].f == inode
    requires s.readers == [Reader(p, Statting(0, 0, inode))]
    requires Unexplained(s0.origin, s0.log, p, Ok([x]))
    ensures Torn(s0, xs)
  {
    var u, s1 := WriterCutsIn(s0, t, s, path, x);
    var v, s2 := ReaderEnds(s0, u, s1, inode);
    TrailExecutes(v, s0, s2);
    xs := v.actions;
  }

  /** The reader waits with its file open; the first `m` entries happen, and the next overwrites it. */
  lemma CallsThenCutIn(s0: State, t: Trail, s: State, p: string, inode: Inode, path: Path, x: Byte, m: nat)
      returns (xs: seq<Action>)
    requires Leads(t, s0, s) && s.readers == [Reader(p, Statting(0, 0, inode))] && s.pc.Fetching? && s.applied == 0
    requires m < |s.log| && forall k :: 0 <= k < m ==> HappensBeside(s.table, s.log[k])
    requires Overwrites(s.log[m], path, x) && s.log[m].path !in s.table
    requires var d := Calls(s.disk, s.log[..m]); ValidDisk(d) && IsFile(d.tree, path) && d.tree[path].f == inode
    requires Unexplained(s0.origin, s0.log, p, Ok([x]))
    ensures Torn(s0, xs)
  {
    var u, s1 := CommandsHappen(s0, t, s, m);
    OverwriteReady(s1, path, x);
    xs := CutIn(s0, u, s1, p, inode, path, x);
  }

  /** The same from the beginning of the run. */
  lemma BesideThenOverwrite(d: Disk, p: string, q: string, x: Byte, log: seq<Command>, m: nat) returns (xs: seq<Action>)
    requires Named(d, p) && q != p && m < |log| && log[m].path == q && Overwrites(log[m], TargetOf(q).path, x)
    requires forall k :: 0 <= k < m ==> HappensBeside(map[p := LockState(1, false)], log[k])
    requires var d', path := Calls(d, log[..m]), TargetOf(q).path;
             ValidDisk(d') && IsFile(d'.tree, path) && d'.tree[path].f == InodeOf(d, p)
    requires Unexplained(View(d), log, p, Ok([x]))
    ensures Torn(Fresh(d, p, log), xs)
  {
    var t := ReaderOpens(d, p, log);
    xs := CallsThenCutIn(Fresh(d, p, log), t, Opened(d, p, log), p, InodeOf(d, p), TargetOf(q).path, x, m);
  }

  lemma OverwriteReady(s: State, path: Path, x: Byte)
    requires s.applied < |s.log| && s.pc.Fetching? && Overwrites(Current(s), path, x) && Current(s).path !in s.table
    ensures Ready(s)
  {
    assert LockPlan(Current(s)) == [Current(s).path];
  }

  /* ---------- Two raw paths, one file ---------- */

  /** For every disk and every two different accepted paths to one file on it, some run of reading one
      while the other is overwritten returns what the file held neither before nor after. */
  lemma AliasedKeysTearReads(d: Disk, p: string, q: string, x: Byte, y: Byte) returns (xs: seq<Action>)
    requires Named(d, p) && Accepted(q) && p != q && TargetOf(p) == TargetOf(q)
    requires d.data[InodeOf(d, p)] != [x]
    ensures Initial(Fresh(d, p, [OverwriteWith(q, x, y)])) && Torn(Fresh(d, p, [OverwriteWith(q, x, y)]), xs)
  {
    var log := [OverwriteWith(q, x, y)];
    var t := ReaderOpens(d, p, log);
    forall k | 0 <= k <= |log| ensures ReadOf(Run(View(d), log[..k]), p) != Ok([x]) {
      NeitherBeforeNorAfter(d, p, log, x, k);
    }
    assert LockPlan(log[0]) == [q];
    xs := CutIn(Fresh(d, p, log), t, Opened(d, p, log), p, InodeOf(d, p), TargetOf(p).path, x);
  }

  lemma NeitherBeforeNorAfter(d: Disk, p: string, log: seq<Command>, x: Byte, k: nat)
    requires Named(d, p) && |log| == 1 && k <= 1 && Overwrites(log[0], TargetOf(p).path, x)
    requires d.data[InodeOf(d, p)] != [x]
    ensures ReadOf(Run(View(d), log[..k]), p) != Ok([x])
  {
    WholeFile(d, p);
    assert log[..0] == [];
    if k == 1 {
      RunNext(View(d), log, 0);
      OverwriteExec(View(d), log[0], TargetOf(p).path, x);
    }
  }

  lemma WholeFile(d: Disk, p: string)
    requires Named(d, p)
    ensures var b, path := d.data[InodeOf(d, p)], TargetOf(p).path;
            path in View(d) && View(d)[path] == File(b) && (ReadOf(View(d), p).Ok? ==> ReadOf(View(d), p) == Ok(b))
  {
    var path := TargetOf(p).path;
    assert View(d)[path] == NodeView(d, d.tree[path]);
  }

  lemma OverwriteExec(t: Tree<Bytes>, c: Command, path: Path, x: Byte)
    requires Overwrites(c, path, x) && IsFile(t, path)
    ensures Exec(t, c).tree == t[path := File(c.contents)]
  {
    OpenExisting(t, path);
    assert Call(t, c, []) == OpenWrite(t, Target(path, false), []);
    assert Saved(c, t[path].f) == c.contents;
  }

  lemma OpenExisting(t: Tree<Bytes>, path: Path)
    requires IsFile(t, path)
    ensures OpenWrite(t, Target(path, false), []) == Sys(t, None)
  {
  }

  /* ---------- A directory moves under an open file ---------- */

  /** `o` is a directory above the file `p`; renaming it to `n` succeeds, and `q` is the file's new path. */
  ghost predicate Relocates(d: Disk, p: string, o: string, n: string, q: string)
  {
    var from, to, file := TargetOf(o), TargetOf(n), TargetOf(p).path;
    && Accepted(o) && Accepted(n) && Accepted(q)
    && from.path < file && Renames(d.tree, from, to)
    && TargetOf(q) == Target(to.path + file[|from.path|..], false)
  }

  lemma MovedFile<F>(t: Tree<F>, from: Target, to: Target, file: Path)
    requires WellFormed(t) && file in t && from.path < file && Renames(t, from, to)
    ensures var tree, place := Rename(t, from, to).tree, to.path + file[|from.path|..];
            && file !in tree && place in tree && tree[place] == t[file]
            && place != file && to.path != file
  {
    RenameReachesMove(t, from, to);
    var r := file[|from.path|..];
    var place := to.path + r;
    assert from.path + r == file && place[|to.path|..] == r;
    MoveAt(t, from.path, to.path, place);
    MoveAt(t, from.path, to.path, file);
    if to.path <= file {
      PrefixesCompare(from.path, to.path, file);
    }
  }

  lemma RelocatedFile(d: Disk, p: string, o: string, n: string, q: string)
    requires Named(d, p) && Relocates(d, p, o, n, q)
    ensures var file, tree := TargetOf(p).path, Rename(d.tree, TargetOf(o), TargetOf(n)).tree;
            && file !in tree && TargetOf(q).path in tree && tree[TargetOf(q).path] == d.tree[file]
            && TargetOf(q).path != file
  {
    MovedFile(d.tree, TargetOf(o), TargetOf(n), TargetOf(p).path);
  }

  lemma RelocatedKeys(d: Disk, p: string, o: string, n: string, q: string)
    requires Named(d, p) && Relocates(d, p, o, n, q)
    ensures RenameBeside(MoveTo(o, n), p) && q != p
  {
    MovedFile(d.tree, TargetOf(o), TargetOf(n), TargetOf(p).path);
  }

  function MoveTo(o: string, n: string): Command
  {
    Command(RenameEntry, o, n, [])
  }

  /** For every disk, every rename of a directory above a file on it, and every pair of accepted paths
      that name the file before and after, some run tears a read of the old path. */
  lemma DirectoryRenamesTearReads(d: Disk, p: string, o: string, n: string, q: string, x: Byte, y: Byte)
      returns (xs: seq<Action>)
    requires Named(d, p) && Relocates(d, p, o, n, q) && d.data[InodeOf(d, p)] != [x]
    ensures var s0 := Fresh(d, p, [MoveTo(o, n), OverwriteWith(q, x, y)]); Initial(s0) && Torn(s0, xs)
  {
    var log := [MoveTo(o, n), OverwriteWith(q, x, y)];
    RelocatedKeys(d, p, o, n, q);
    RenameHappensBeside(p, log[0]);
    OneHappens(p, log, 1);
    RelocatingCall(d, p, log, q);
    NowhereTheByte(d, p, q, x, log);
    xs := BesideThenOverwrite(d, p, q, x, log, 1);
  }

  lemma OneHappens(p: string, log: seq<Command>, m: nat)
    requires m == 1 && m < |log| && HappensBeside(map[p := LockState(1, false)], log[0])
    ensures forall k :: 0 <= k < m ==> HappensBeside(map[p := LockState(1, false)], log[k])
  {
  }

  /** A rename that needs neither the lock of `p` nor one lock twice. */
  predicate RenameBeside(c: Command, p: string)
  {
    c.kind.RenameEntry? && Accepts(c) && c.path != p && c.newPath != p && c.path != c.newPath
  }

  lemma RenameHappensBeside(p: string, c: Command)
    requires RenameBeside(c, p)
    ensures HappensBeside(map[p := LockState(1, false)], c)
  {
    assert LockPlan(c) == [c.path, c.newPath];
  }

  lemma CallsOne(d: Disk, log: seq<Command>)
    requires |log| > 0
    ensures Calls(d, log[..1]) == DiskCall(d, log[0])
  {
    assert log[..1][..0] == [];
  }

  lemma NowhereTheByte(d: Disk, p: string, q: string, x: Byte, log: seq<Command>)
    requires |log| == 2 && log[0].kind.RenameEntry? && Overwrites(log[1], TargetOf(q).path, x)
    requires Named(d, p) && Relocates(d, p, log[0].path, log[0].newPath, q) && d.data[InodeOf(d, p)] != [x]
    ensures Unexplained(View(d), log, p, Ok([x]))
  {
    forall k | 0 <= k <= |log| ensures ReadOf(Run(View(d), log[..k]), p) != Ok([x]) {
      GoneAfterRename(d, p, q, x, log, k);
    }
  }

  lemma RelocatingCall(d: Disk, p: string, log: seq<Command>, q: string)
    requires |log| > 0 && log[0].kind.RenameEntry? && Named(d, p) && Relocates(d, p, log[0].path, log[0].newPath, q)
    ensures var d', path := Calls(d, log[..1]), TargetOf(q).path;
            ValidDisk(d') && IsFile(d'.tree, path) && d'.tree[path].f == InodeOf(d, p)
  {
    RelocatedFile(d, p, log[0].path, log[0].newPath, q);
    ViewDiskCall(d, log[0]);
    RenameCall(d, log[0]);
    CallsOne(d, log);
  }

  lemma GoneAfterRename(d: Disk, p: string, q: string, x: Byte, log: seq<Command>, k: nat)
    requires |log| == 2 && log[0].kind.RenameEntry? && k <= 2 && Overwrites(log[1], TargetOf(q).path, x)
    requires Named(d, p) && Relocates(d, p, log[0].path, log[0].newPath, q) && d.data[InodeOf(d, p)] != [x]
    ensures ReadOf(Run(View(d), log[..k]), p) != Ok([x])
  {
    WholeFile(d, p);
    assert log[..0] == [];
    if k > 0 {
      RunNext(View(d), log, 0);
      GoneFromView(d, p, log[0], q);
    }
    if k == 2 {
      RunNext(View(d), log, 1);
      RelocatedFile(d, p, log[0].path, log[0].newPath, q);
      OverwriteElsewhere(Run(View(d), log[..1]), log[1], TargetOf(p).path);
    }
  }

  lemma GoneFromView(d: Disk, p: string, c: Command, q: string)
    requires c.kind.RenameEntry? && Named(d, p) && Relocates(d, p, c.path, c.newPath, q)
    ensures TargetOf(p).path !in Exec(View(d), c).tree
  {
    RelocatedFile(d, p, c.path, c.newPath, q);
    RenamedNames(d, c);
  }

  lemma RenamedNames(d: Disk, c: Command)
    requires ValidDisk(d) && c.kind.RenameEntry? && Accepts(c)
    ensures Exec(View(d), c).tree.Keys == Rename(d.tree, TargetOf(c.path), TargetOf(c.newPath)).tree.Keys
  {
    ViewRename(d, TargetOf(c.path), TargetOf(c.newPath));
    ExecOfRename(View(d), c);
  }

  lemma OverwriteElsewhere(t: Tree<Bytes>, c: Command, file: Path)
    requires c.kind.WriteFile? && TargetOf(c.path).path != file && file !in t
    ensures file !in Exec(t, c).tree
  {
    FileCommandFrame(t, c, file);
  }
}
