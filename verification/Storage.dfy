/**
  The operations of `Storage` (src/storage.cc) as methods that change the disk in the steps of the
  source: validate, open, transfer in pieces, report.  Each is proved against the atomic meaning of
  its command.

  The results of successive transfer calls are an input: a finite pattern of interruptions and
  short transfers, after which calls transfer all that is left.  Locks are left to the step system,
  where threads share them.
 */
module Storage {
  import opened Basics
  import opened Paths
  import opened FileTree
  import opened Commands
  import opened DiskModel

  /** What one read(2), write(2), recv(2) or send(2) does when it does not fail. */
  datatype IoCall = Interrupted | Moved(n: nat)

  /** The disk `d` reached from `d0` when `written` bytes of the buffer have followed `b` in the file. */
  ghost predicate WrittenSoFar(d0: Disk, d: Disk, p: Path, b: Bytes, buffer: Bytes, written: nat)
    requires written <= |buffer|
  {
    && ValidDisk(d) && IsFile(d.tree, p)
    && d.data[d.tree[p].f] == b + buffer[..written]
    && View(d) == View(d0)[p := File(b + buffer[..written])]
  }

  lemma NothingWritten(d: Disk, p: Path, buffer: Bytes)
    requires ValidDisk(d) && IsFile(d.tree, p)
    ensures WrittenSoFar(d, d, p, d.data[d.tree[p].f], buffer, 0)
  {
    var b := d.data[d.tree[p].f];
    assert b + buffer[..0] == b;
    assert View(d)[p] == NodeView(d, d.tree[p]) == File(b);
    assert View(d)[p := View(d)[p]] == View(d);
  }

  lemma MoreWritten(d0: Disk, d: Disk, p: Path, append: bool, b: Bytes, buffer: Bytes, written: nat, n: nat)
    requires written + n <= |buffer| && WrittenSoFar(d0, d, p, b, buffer, written)
    requires !append ==> b == []
    ensures var d' := WriteChunk(d, d.tree[p].f, append, written, buffer[written..written + n]);
            d'.tree == d.tree && WrittenSoFar(d0, d', p, b, buffer, written + n)
  {
    var chunk, before := buffer[written..written + n], b + buffer[..written];
    assert !append ==> |before| == written;
    ChunkWritten(d, p, append, written, chunk);
    ChunksJoin(b, buffer, written, n);
    UpdatedTwice(View(d0), p, File(before), File(before + chunk));
  }

  lemma AllWritten(d0: Disk, d: Disk, p: Path, b: Bytes, buffer: Bytes)
    requires WrittenSoFar(d0, d, p, b, buffer, |buffer|)
    ensures ValidDisk(d) && View(d) == View(d0)[p := File(b + buffer)]
  {
    assert buffer[..|buffer|] == buffer;
  }

  lemma ChunksJoin(b: Bytes, buffer: Bytes, written: nat, n: nat)
    requires written + n <= |buffer|
    ensures b + buffer[..written] + buffer[written..written + n] == b + buffer[..written + n]
  {
    assert buffer[..written + n] == buffer[..written] + buffer[written..written + n];
  }

  /** An open that succeeds and a complete transfer are the whole command. */
  lemma SaveIsExec(t: Tree<Bytes>, c: Command)
    requires Accepts(c) && Writes(c.kind) && Call(t, c, []).err.None?
    ensures Exec(t, c) == Outcome(Fill(Call(t, c, []).tree, TargetOf(c.path).path, c), Fine)
  {
  }

  /** The read loop: short reads and EINTR, until as many bytes are in the buffer as the file has. */
  method ReadAll(file: Bytes, io: seq<IoCall>) returns (buffer: Bytes)
    ensures buffer == file
  {
    buffer := [];
    var k := 0;
    while |buffer| < |file|
      invariant buffer <= file
      decreases |file| - |buffer|, if k < |io| then |io| - k else 0
    {
      if k < |io| && io[k].Interrupted? {
        k := k + 1;
        continue;
      }
      var n := if k < |io| then Piece(io[k].n, |file| - |buffer|) else |file| - |buffer|;
      assert file[..|buffer|] + file[|buffer|..|buffer| + n] == file[..|buffer| + n];
      buffer := buffer + file[|buffer|..|buffer| + n];
      k := k + 1;
    }
  }

  class Store {
    var disk: Disk

    constructor (d: Disk)
      ensures disk == d
    {
      disk := d;
    }

    /** The operations that make one system call and map its error: create, delete and rename.  Locks
        aside: a rename of a raw path to itself gets past validation here, while in the source it waits for
        its own lock. */
    method Perform(c: Command) returns (status: Status)
      requires ValidDisk(disk) && Mutating(c.kind) && !Writes(c.kind)
      modifies this
      ensures ValidDisk(disk)
      ensures Outcome(View(disk), status) == Exec(View(old(disk)), c)
    {
      status := ValidatePath(c.path);
      if status.Fine? && c.kind.RenameEntry? {
        status := ValidatePath(c.newPath);
      }
      if status.Fine? {
        var err := DiskErr(disk, c);
        ViewDiskCall(disk, c);
        disk := DiskCall(disk, c);
        status := StatusOf(c.kind, err);
      }
    }

    /** The write loop: short writes and EINTR, until the buffer is on the disk. */
    method WriteAll(p: Path, append: bool, buffer: Bytes, io: seq<IoCall>)
      requires ValidDisk(disk) && IsFile(disk.tree, p)
      requires !append ==> disk.data[disk.tree[p].f] == []
      modifies this
      ensures ValidDisk(disk) && disk.tree == old(disk.tree)
      ensures View(disk) == View(old(disk))[p := File(old(disk.data[disk.tree[p].f]) + buffer)]
    {
      ghost var d0, b := disk, disk.data[disk.tree[p].f];
      var inode := disk.tree[p].f;
      var written, k := 0, 0;
      NothingWritten(disk, p, buffer);
      while written < |buffer|
        invariant written <= |buffer| && disk.tree == d0.tree
        invariant WrittenSoFar(d0, disk, p, b, buffer, written)
        decreases |buffer| - written, if k < |io| then |io| - k else 0
      {
        if k < |io| && io[k].Interrupted? {
          k := k + 1;
          continue;
        }
        var n := if k < |io| then Piece(io[k].n, |buffer| - written) else |buffer| - written;
        MoreWritten(d0, disk, p, append, b, buffer, written, n);
        disk := WriteChunk(disk, inode, append, written, buffer[written..written + n]);
        written, k := written + n, k + 1;
      }
      AllWritten(d0, disk, p, b, buffer);
    }

    /** `write_file` and `append_file`: the file ends up with exactly the buffer, or with its old
        contents followed by the buffer, under every pattern of short writes. */
    method Save(c: Command, io: seq<IoCall>) returns (status: Status)
      requires ValidDisk(disk) && Writes(c.kind)
      modifies this
      ensures ValidDisk(disk)
      ensures Outcome(View(disk), status) == Exec(View(old(disk)), c)
    {
      status := ValidatePath(c.path);
      if status.Failed? {
        return;
      }
      var p, err := TargetOf(c.path).path, DiskErr(disk, c);
      ViewDiskCall(disk, c);
      if err.Some? {
        disk := DiskCall(disk, c);
        return StatusOf(c.kind, err);
      }
      OpenedForWriting(disk, c);
      SaveIsExec(View(disk), c);
      disk := DiskCall(disk, c);
      WriteAll(p, c.kind.AppendFile?, c.contents, io);
      status := Fine;
    }

    /** `read_file`: the short-read loop returns what the file holds. */
    method ReadFile(path: string, io: seq<IoCall>) returns (r: Result<Bytes>)
      requires ValidDisk(disk)
      ensures r == ReadOf(View(disk), path)
    {
      var status := ValidatePath(path);
      if status.Failed? {
        return Err(status.code);
      }
      var g := TargetOf(path);
      ViewLookup(disk, g);
      if !Present(disk.tree, g) {
        return Err(CodeOf(Missing(disk.tree, g)));
      }
      assert View(disk)[g.path] == NodeView(disk, disk.tree[g.path]);
      if disk.tree[g.path].Dir? {
        return Err(IoError);
      }
      assert IsFile(disk.tree, g.path);
      var file := disk.data[disk.tree[g.path].f];
      var size := |file|;
      if size > SIZE_LIMIT {
        return Err(IoError);
      }
      var buffer := ReadAll(file, io);
      return Ok(buffer);
    }
  }

  /** What was written is what is read: after a write the buffer, after an append the old contents
      and the buffer, if the file is within the size limit. */
  lemma ReadBackAfterSave(t: Tree<Bytes>, c: Command)
    requires Writes(c.kind) && Exec(t, c).status == Fine
    ensures var bytes := Saved(c, Or(Get(t, TargetOf(c.path).path)));
            ReadOf(Exec(t, c).tree, c.path) == if |bytes| <= SIZE_LIMIT then Ok(bytes) else Err(IoError)
  {
    SaveLeaves(t, c);
  }
}
