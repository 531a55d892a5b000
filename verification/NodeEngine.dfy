/**
  How a node's storage engine fits into the cluster: where the engine stands, the node's tree is; what
  a crash of the engine leaves is what a restarted node begins with; and a read served beside the
  applier sees the tree after some prefix of the committed log.
 */
module NodeEngine {
  import opened Basics
  import opened FileTree
  import opened Commands
  import opened DiskModel
  import opened Replica
  import opened Replay
  import opened Paths
  import opened Engine
  import opened EngineEffects
  import opened EngineAtomicity
  import C = Cluster

  /** A storage engine that starts from the common tree and executes the first `m` committed entries. */
  ghost predicate Serves(codec: Codec, c: C.Cluster, s0: State, m: nat)
  {
    && m <= |c.committed| && Initial(s0) && ValidDisk(s0.disk)
    && s0.origin == c.origin && s0.log == C.Log(codec, c.committed)[..m]
  }

  /** Applying an entry in one step is what the engine comes to: between entries its disk shows the tree
      of any node that has applied as many, and it has given each entry the status of the cluster. */
  lemma EngineIsNode(codec: Codec, c0: C.Cluster, steps: seq<C.Action>, n: nat, s0: State, actions: seq<Action>, m: nat)
    requires C.Initial(c0) && C.Execute(codec, c0, steps).Some?
    requires var c := C.Execute(codec, c0, steps).value;
             && n < |c.nodes| && C.CalmNode(codec, c, c.nodes[n])
             && Serves(codec, c, s0, m) && Execute(s0, actions).Some?
    ensures var c, s := C.Execute(codec, c0, steps).value, Execute(s0, actions).value;
            && (s.pc.Fetching? && s.applied == c.nodes[n].reached ==> View(s.disk) == C.CaughtUp(codec, c, c.nodes[n]))
            && |s.statuses| == s.applied <= |c.committed|
            && (forall k :: 0 <= k < s.applied ==> s.statuses[k] == C.StatusAt(codec, c, k))
  {
    C.RunsAreRight(codec, c0, steps);
    RunsAreGood(s0, actions);
    var c, s := C.Execute(codec, c0, steps).value, Execute(s0, actions).value;
    var log := C.Log(codec, c.committed);
    assert C.NodeRight(codec, c, c.nodes[n]);
    assert s.log[..s.applied] == log[..s.applied];
    StandsAt(s, log);
  }

  /** Disk and statuses between entries, in terms of a longer log. */
  lemma StandsAt(s: State, log: seq<Command>)
    requires EffectsRight(s) && |s.log| <= |log| && s.log[..s.applied] == log[..s.applied]
    ensures s.pc.Fetching? ==> View(s.disk) == Run(s.origin, log[..s.applied])
    ensures |s.statuses| == s.applied
    ensures forall k :: 0 <= k < s.applied ==> s.statuses[k] == Exec(Run(s.origin, log[..k]), log[k]).status
  {
    forall k | 0 <= k < s.applied ensures s.statuses[k] == Exec(Run(s.origin, log[..k]), log[k]).status {
      StatusOfEntry(s.origin, log[..s.applied], k);
      assert log[..s.applied][..k] == log[..k];
    }
  }

  lemma StatusOfEntry(t: Tree<Bytes>, log: seq<Command>, k: nat)
    requires k < |log|
    ensures Statuses(t, log)[k] == Exec(Run(t, log[..k]), log[k]).status
  {
    RunNext(t, log, k);
    StatusesOfPrefix(t, log[..k + 1], log);
  }

  /** Reads ask no one.  What a read returned, unless a write can reach its open file past its lock, is
      what the tree after some prefix of the committed log shows: at least as long as what the node had
      completed when the read began, and no longer than what it had begun when the read returned. */
  lemma ReadsSeeAPrefix(codec: Codec, c: C.Cluster, s0: State, actions: seq<Action>, m: nat, i: nat)
    requires Serves(codec, c, s0, m) && i < |s0.readers| && NoClash(s0, s0.readers[i].path)
    requires Execute(s0, actions).Some?
    ensures i < |Execute(s0, actions).value.readers|
    ensures var r := Execute(s0, actions).value.readers[i];
            r.pc.Returned? ==>
              && r.pc.since <= r.pc.at <= r.pc.until <= m
              && r.pc.result == ReadOf(Run(c.origin, C.Log(codec, c.committed[..r.pc.at])), s0.readers[i].path)
  {
    ReadsAreAtomic(s0, actions, i);
    var pc := Execute(s0, actions).value.readers[i].pc;
    if pc.Returned? {
      assert s0.log[..pc.at] == C.Log(codec, c.committed[..pc.at]);
    }
  }

  /* ---------- Crashes ---------- */

  /** The disk of a write in progress shows the goal with the end of the buffer missing. */
  lemma WriteShowsHalf(s: State)
    requires EffectsRight(s) && s.pc.Writing?
    ensures View(s.disk) == HalfDone(TreeAt(s, s.applied), Current(s), s.pc.written)
  {
    var c, goal, b := Current(s), Goal(s).tree, s.disk.data[s.pc.inode];
    var p, rest := TargetOf(c.path).path, c.contents[s.pc.written..];
    SaveLeaves(TreeAt(s, s.applied), c);
    FileAsItIs(s.disk, p);
    assert goal[p].f == b + rest;
    Shortened(View(s.disk), goal, p, b, rest);
    GoalHoldsBuffer(TreeAt(s, s.applied), c);
  }

  lemma Shortened(v: Tree<Bytes>, goal: Tree<Bytes>, p: Path, b: Bytes, rest: Bytes)
    requires v[p := File(b + rest)] == goal && v[p := File(b)] == v
    ensures goal[p := File((b + rest)[..|b + rest| - |rest|])] == v
  {
    assert (b + rest)[..|b|] == b;
  }

  lemma GoalHoldsBuffer(t: Tree<Bytes>, c: Command)
    requires Writes(c.kind) && Exec(t, c).status == Fine
    ensures var p, t' := TargetOf(c.path).path, Exec(t, c).tree; IsFile(t', p) && |c.contents| <= |t'[p].f|
  {
    SaveLeaves(t, c);
  }

  /** Whenever the process ends, its disk shows a tree between entries or one that a crash inside the
      entry in hand leaves. */
  lemma DiskShowsCrash(s: State) returns (left: Option<nat>)
    requires EffectsRight(s)
    ensures s.applied <= |s.log| && View(s.disk) == Crashed(s.origin, s.log, s.applied, left)
  {
    left := None;
    if s.pc.Writing? {
      left := Some(s.pc.written);
      WriteShowsHalf(s);
    } else if s.pc.Releasing? {
      left := Some(|Current(s).contents| + 1);
    }
  }

  /** A node that crashed at any moment of any run, inside a write included, and is fed the log again from
      any entry it had completed ends in the tree of one clean run, if all entries may be replayed. */
  lemma CrashedEngineReplays(s0: State, actions: seq<Action>, i: nat)
    requires Initial(s0) && ValidDisk(s0.disk) && Execute(s0, actions).Some?
    requires i <= Execute(s0, actions).value.applied
    requires forall j :: 0 <= j < |s0.log| ==> Repeatable(s0.log[j].kind)
    ensures i <= |s0.log| && Run(View(Execute(s0, actions).value.disk), s0.log[i..]) == Run(s0.origin, s0.log)
  {
    RunsAreGood(s0, actions);
    var s := Execute(s0, actions).value;
    ViewShape(s0.disk);
    var left := DiskShowsCrash(s);
    ReplayIsHarmless(s0.origin, s0.log, i, s.applied, left);
  }
}
