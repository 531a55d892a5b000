/**
  `StateMachine` (src/state_machine.cc): the loop that applies committed log entries to the storage
  and completes closures.

  MessagePack is a pair of functions, `pack` and `unpack`, that a caller supplies.
 */
module Replica {
  import opened Basics
  import opened Commands
  import opened FileTree
  import opened DiskModel
  import opened Storage

  datatype Codec = Codec(pack: Command -> Bytes, unpack: Bytes -> Option<Command>)

  ghost predicate Lossless(codec: Codec)
  {
    forall c: Command :: codec.unpack(codec.pack(c)) == Some(c)
  }

  /** A log entry as `on_apply` sees it: its bytes, and whether a closure of this node comes with it. */
  datatype Delivered = Delivered(payload: Bytes, local: bool)

  /** The command an entry stands for; one that is too large or does not decode does nothing and fails. */
  function Meaning(codec: Codec, payload: Bytes): Command
  {
    if |payload| > SIZE_LIMIT then Command(Unknown(0), "", "", [])
    else match codec.unpack(payload)
      case None => Command(Unknown(0), "", "", [])
      case Some(c) => c
  }

  function Meanings(codec: Codec, batch: seq<Delivered>): (log: seq<Command>)
    ensures |log| == |batch| && forall i :: 0 <= i < |batch| ==> log[i] == Meaning(codec, batch[i].payload)
  {
    seq(|batch|, i requires 0 <= i < |batch| => Meaning(codec, batch[i].payload))
  }

  /** The closures of the first entries of a batch, completed with their statuses. */
  ghost predicate Settled(batch: seq<Delivered>, statuses: seq<Status>, closures: seq<Option<Status>>)
  {
    && |closures| == |statuses| <= |batch|
    && forall j :: 0 <= j < |closures| ==> closures[j] == if batch[j].local then Some(statuses[j]) else None
  }

  lemma SettledNext(batch: seq<Delivered>, statuses: seq<Status>, closures: seq<Option<Status>>, status: Status)
    requires Settled(batch, statuses, closures) && |closures| < |batch|
    ensures Settled(batch, statuses + [status], closures + [if batch[|closures|].local then Some(status) else None])
  {
  }

  class Machine {
    const codec: Codec
    const store: Store

    constructor (codec: Codec, store: Store)
      ensures this.codec == codec && this.store == store
    {
      this.codec, this.store := codec, store;
    }

    /** `apply_command`: dispatches to the storage operation. */
    method ApplyCommand(c: Command, io: seq<IoCall>) returns (status: Status)
      requires ValidDisk(store.disk)
      modifies store
      ensures ValidDisk(store.disk)
      ensures Outcome(View(store.disk), status) == Exec(View(old(store.disk)), c)
    {
      match c.kind
      case CreateFile => status := store.Perform(c);
      case WriteFile => status := store.Save(c, io);
      case AppendFile => status := store.Save(c, io);
      case DeleteFile => status := store.Perform(c);
      case CreateDir => status := store.Perform(c);
      case DeleteDir => status := store.Perform(c);
      case RenameEntry => status := store.Perform(c);
      case ReadFile => status := Fine;
      case ListDir => status := Fine;
      case Unknown(_) => status := Failed(InvalidCommand);
    }

    /** One pass of the loop in `on_apply`: size check, decoding, and the command. */
    method ApplyEntry(payload: Bytes, io: seq<IoCall>) returns (status: Status)
      requires ValidDisk(store.disk)
      modifies store
      ensures ValidDisk(store.disk)
      ensures Outcome(View(store.disk), status) == Exec(View(old(store.disk)), Meaning(codec, payload))
    {
      if |payload| > SIZE_LIMIT {
        return Failed(InvalidCommand);
      }
      var decoded := codec.unpack(payload);
      if decoded.None? {
        return Failed(InvalidCommand);
      }
      status := ApplyCommand(decoded.value, io);
    }

    /** `on_apply`: one batch, with the I/O pattern of each entry.  The tree moves by exactly the
        batch's commands, and each closure gets the status of its own entry. */
    method OnApply(batch: seq<Delivered>, io: seq<seq<IoCall>>) returns (closures: seq<Option<Status>>)
      requires ValidDisk(store.disk)
      modifies store
      ensures ValidDisk(store.disk)
      ensures View(store.disk) == Run(View(old(store.disk)), Meanings(codec, batch))
      ensures |closures| == |batch|
      ensures forall i :: 0 <= i < |batch| ==>
                closures[i] == if !batch[i].local then None
                               else Some(Statuses(View(old(store.disk)), Meanings(codec, batch))[i])
    {
      closures := [];
      ghost var t0, log := View(store.disk), Meanings(codec, batch);
      ghost var statuses: seq<Status> := [];
      assert log[..0] == [];
      for i := 0 to |batch|
        invariant ValidDisk(store.disk)
        invariant View(store.disk) == Run(t0, log[..i])
        invariant statuses == Statuses(t0, log[..i])
        invariant Settled(batch, statuses, closures)
      {
        RunNext(t0, log, i);
        var status := ApplyEntry(batch[i].payload, if i < |io| then io[i] else []);
        SettledNext(batch, statuses, closures, status);
        statuses := statuses + [status];
        closures := closures + [if batch[i].local then Some(status) else None];
      }
      assert log[..|batch|] == log;
    }
  }

  /** An entry that is longer than a hundred mebibytes, or that does not decode, fails and changes nothing;
      any other is executed as the command it decodes to. */
  lemma EntriesMean(codec: Codec, t: Tree<Bytes>, payload: Bytes)
    ensures Exec(t, Meaning(codec, payload)) ==
            if |payload| > 100 * 1024 * 1024 || codec.unpack(payload).None? then Outcome(t, Failed(InvalidCommand))
            else Exec(t, codec.unpack(payload).value)
  {
  }

  /* ---------- Batches do not matter ---------- */

  function Flatten(batches: seq<seq<Delivered>>): seq<Delivered>
  {
    if batches == [] then [] else Flatten(batches[..|batches| - 1]) + batches[|batches| - 1]
  }

  function RunBatches(codec: Codec, t: Tree<Bytes>, batches: seq<seq<Delivered>>): Tree<Bytes>
  {
    if batches == [] then t
    else Run(RunBatches(codec, t, batches[..|batches| - 1]), Meanings(codec, batches[|batches| - 1]))
  }

  function BatchStatuses(codec: Codec, t: Tree<Bytes>, batches: seq<seq<Delivered>>): seq<Status>
  {
    if batches == [] then []
    else
      var before, last := batches[..|batches| - 1], batches[|batches| - 1];
      BatchStatuses(codec, t, before) + Statuses(RunBatches(codec, t, before), Meanings(codec, last))
  }

  lemma MeaningsAppend(codec: Codec, a: seq<Delivered>, b: seq<Delivered>)
    ensures Meanings(codec, a + b) == Meanings(codec, a) + Meanings(codec, b)
  {
  }

  lemma {:induction false} BatchesRunTheLog(codec: Codec, t: Tree<Bytes>, batches: seq<seq<Delivered>>)
    ensures RunBatches(codec, t, batches) == Run(t, Meanings(codec, Flatten(batches)))
    ensures BatchStatuses(codec, t, batches) == Statuses(t, Meanings(codec, Flatten(batches)))
  {
    if batches != [] {
      var before, last := batches[..|batches| - 1], batches[|batches| - 1];
      BatchesRunTheLog(codec, t, before);
      MeaningsAppend(codec, Flatten(before), last);
      RunAppend(t, Meanings(codec, Flatten(before)), Meanings(codec, last));
    }
  }

  /** Two nodes of which one has received the first payloads of the other give every entry both have
      the same status, and equally many entries leave the same tree, however each stream was cut into
      batches and whichever entries came with closures. */
  lemma BatchingIsInvisible(codec: Codec, t: Tree<Bytes>, a: seq<seq<Delivered>>, b: seq<seq<Delivered>>)
    requires |Flatten(a)| <= |Flatten(b)|
    requires forall i :: 0 <= i < |Flatten(a)| ==> Flatten(a)[i].payload == Flatten(b)[i].payload
    ensures BatchStatuses(codec, t, a) <= BatchStatuses(codec, t, b)
    ensures |Flatten(a)| == |Flatten(b)| ==> RunBatches(codec, t, a) == RunBatches(codec, t, b)
  {
    BatchesRunTheLog(codec, t, a);
    BatchesRunTheLog(codec, t, b);
    PrefixAgrees(codec, t, Flatten(a), Flatten(b));
  }

  lemma PrefixAgrees(codec: Codec, t: Tree<Bytes>, a: seq<Delivered>, b: seq<Delivered>)
    requires |a| <= |b| && forall i :: 0 <= i < |a| ==> a[i].payload == b[i].payload
    ensures Statuses(t, Meanings(codec, a)) <= Statuses(t, Meanings(codec, b))
    ensures |a| == |b| ==> Meanings(codec, a) == Meanings(codec, b)
  {
    var x, y := Meanings(codec, a), Meanings(codec, b);
    assert x <= y;
    StatusesOfPrefix(t, x, y);
  }
}
