/**
  Acknowledged writes and restarts, exactly: for which command kinds every acknowledged write is
  reflected by every node that has applied it, in every run with restarts at any moment.
 */
module ClusterExact {
  import opened Basics
  import opened FileTree
  import opened Commands
  import opened Replica
  import opened Replay
  import opened Cluster

  /** Clients send commands of these kinds only. */
  ghost predicate Dispatches(actions: seq<Action>, kinds: set<Kind>)
  {
    forall x :: 0 <= x < |actions| && actions[x].Dispatch? ==> actions[x].command.kind in kinds
  }

  /** If request `r` was answered with success, it stands at one position, was applied there with an ok
      result, and is reflected by every node that ever applied it. */
  ghost predicate AckHolds(codec: Codec, c0: Cluster, actions: seq<Action>, r: nat)
  {
    var e := Execute(codec, c0, actions);
    e.Some? && r < |e.value.requests| && e.value.requests[r].phase.Answered? && e.value.requests[r].phase.success ==>
      exists k: nat :: OnlyPosition(e.value, r, k) && Reflected(codec, e.value, e.value.requests[r].command, k)
  }

  ghost predicate Reflected(codec: Codec, c: Cluster, cmd: Command, k: nat)
    requires k < |c.committed|
  {
    && Log(codec, c.committed)[k] == cmd && StatusAt(codec, c, k) == Fine
    && forall n :: 0 <= n < |c.nodes| && c.nodes[n].reached > k ==> Reflects(codec, c, c.nodes[n], k)
  }

  ghost predicate AcksAlwaysHold(codec: Codec, kinds: set<Kind>)
  {
    forall c0: Cluster, actions: seq<Action>, r: nat ::
      Initial(c0) && Dispatches(actions, kinds) ==> AckHolds(codec, c0, actions, r)
  }

  /** Mutating commands with short paths and at most a byte of contents are not too large for the log. */
  ghost predicate Fits(codec: Codec)
  {
    forall c: Command :: Mutating(c.kind) && Small(c, 1) ==> |codec.pack(c)| <= SIZE_LIMIT
  }

  /* ---------- Replayable kinds ---------- */

  lemma {:induction false} RequestsAreOfKinds(codec: Codec, c0: Cluster, actions: seq<Action>, kinds: set<Kind>)
    requires Initial(c0) && Dispatches(actions, kinds) && Execute(codec, c0, actions).Some?
    ensures var c := Execute(codec, c0, actions).value;
            forall r :: 0 <= r < |c.requests| ==> c.requests[r].command.kind in kinds
  {
    if actions != [] {
      var before, a := actions[..|actions| - 1], actions[|actions| - 1];
      assert Dispatches(before, kinds);
      RequestsAreOfKinds(codec, c0, before, kinds);
      CommandsStay(codec, Execute(codec, c0, before).value, a, kinds);
    }
  }

  lemma CommandsStay(codec: Codec, c: Cluster, a: Action, kinds: set<Kind>)
    requires Enabled(c, a) && (a.Dispatch? ==> a.command.kind in kinds)
    requires forall r :: 0 <= r < |c.requests| ==> c.requests[r].command.kind in kinds
    ensures var c' := Do(codec, c, a); forall r :: 0 <= r < |c'.requests| ==> c'.requests[r].command.kind in kinds
  {
  }

  lemma CommittedIsRepeatable(codec: Codec, c: Cluster, kinds: set<Kind>, k: nat)
    requires Lossless(codec) && Right(codec, c) && k < |c.committed|
    requires forall r :: 0 <= r < |c.requests| ==> c.requests[r].command.kind in kinds
    requires forall kind :: kind in kinds && Mutating(kind) ==> Repeatable(kind)
    ensures Repeatable(Log(codec, c.committed)[k].kind)
  {
    assert EntryRight(codec, c, k);
    assert RequestRight(codec, c, c.committed[k].request);
  }

  lemma ReplayableAcksHold(codec: Codec, kinds: set<Kind>, c0: Cluster, actions: seq<Action>, r: nat)
    requires Lossless(codec) && Initial(c0) && Dispatches(actions, kinds)
    requires forall kind :: kind in kinds && Mutating(kind) ==> Repeatable(kind)
    ensures AckHolds(codec, c0, actions, r)
  {
    var e := Execute(codec, c0, actions);
    if e.Some? && r < |e.value.requests| && e.value.requests[r].phase.Answered? && e.value.requests[r].phase.success {
      RunsAreRight(codec, c0, actions);
      RequestsAreOfKinds(codec, c0, actions, kinds);
      forall k | 0 <= k < |e.value.committed| ensures Repeatable(Log(codec, e.value.committed)[k].kind) {
        CommittedIsRepeatable(codec, e.value, kinds, k);
      }
      var k := AcknowledgedWritesHold(codec, c0, actions, r);
      assert Reflected(codec, e.value, e.value.requests[r].command, k);
    }
  }

  /* ---------- Every other kind ---------- */

  /** One leading node that has served the first `m` commands of the log, and answered each. */
  ghost predicate HasServed(codec: Codec, c: Cluster, t: Tree<Bytes>, log: seq<Command>, m: nat)
    requires m <= |log|
  {
    && c.origin == t && |c.committed| == m && |c.requests| == m && |c.nodes| == 1
    && c.nodes[0] == Node(true, false, m, m, Run(t, log[..m]))
    && (forall k :: 0 <= k < m ==> c.committed[k] == Entry(k, codec.pack(log[k])))
    && (forall k :: 0 <= k < m ==> ServedRequest(c.requests[k], t, log, k))
  }

  predicate ServedRequest(q: Request, t: Tree<Bytes>, log: seq<Command>, k: nat)
    requires k < |log|
  {
    var status := Exec(Run(t, log[..k]), log[k]).status;
    q == Request(log[k], 0, Answered(Applied(k, status, false), status == Fine))
  }

  ghost predicate Servable(codec: Codec, log: seq<Command>)
  {
    forall k :: 0 <= k < |log| ==> Mutating(log[k].kind) && |codec.pack(log[k])| <= SIZE_LIMIT
  }

  lemma NextRun(codec: Codec, c0: Cluster, xs: seq<Action>, c: Cluster, a: Action) returns (ys: seq<Action>)
    requires Execute(codec, c0, xs) == Some(c) && Enabled(c, a)
    ensures ys == xs + [a] && Execute(codec, c0, ys) == Some(Do(codec, c, a))
  {
    ys := xs + [a];
    assert ys[..|ys| - 1] == xs;
  }

  /** Dispatched and committed. */
  function Proposing(codec: Codec, c: Cluster, cmd: Command): Cluster
  {
    c.(requests := c.requests + [Request(cmd, 0, Proposed(Pending))],
       committed := c.committed + [Entry(|c.requests|, codec.pack(cmd))])
  }

  lemma ProposesNext(codec: Codec, c: Cluster, t: Tree<Bytes>, log: seq<Command>, m: nat)
    requires m < |log| && HasServed(codec, c, t, log, m) && Servable(codec, log)
    ensures Enabled(c, Dispatch(0, log[m])) && Enabled(Do(codec, c, Dispatch(0, log[m])), Commit(m))
    ensures Do(codec, Do(codec, c, Dispatch(0, log[m])), Commit(m)) == Proposing(codec, c, log[m])
  {
    var c1 := Do(codec, c, Dispatch(0, log[m]));
    assert c1.requests[m] == Request(log[m], 0, Proposed(Pending));
    assert !IsCommitted(c1, m);
  }

  lemma AnswersNext(codec: Codec, c: Cluster, t: Tree<Bytes>, log: seq<Command>, m: nat)
    requires m < |log| && HasServed(codec, c, t, log, m) && Servable(codec, log) && Lossless(codec)
    ensures var c2 := Proposing(codec, c, log[m]);
            && Enabled(c2, Deliver(0)) && Enabled(Do(codec, c2, Deliver(0)), Reply(m))
            && HasServed(codec, Do(codec, Do(codec, c2, Deliver(0)), Reply(m)), t, log, m + 1)
  {
    var c2 := Proposing(codec, c, log[m]);
    assert c2.committed[m] == Entry(m, codec.pack(log[m])) && c2.requests[m] == Request(log[m], 0, Proposed(Pending));
    assert Meaning(codec, codec.pack(log[m])) == log[m];
    RunNext(t, log, m);
    var c3 := Do(codec, c2, Deliver(0));
    var status := Exec(Run(t, log[..m]), log[m]).status;
    assert c3.requests[m] == Request(log[m], 0, Proposed(Applied(m, status, false)));
    var c4 := Do(codec, c3, Reply(m));
    forall k | 0 <= k < m + 1 ensures ServedRequest(c4.requests[k], t, log, k) {
      assert k < m ==> ServedRequest(c.requests[k], t, log, k);
    }
  }

  lemma {:induction false} ServesLog(codec: Codec, c0: Cluster, t: Tree<Bytes>, log: seq<Command>, m: nat,
                                     kinds: set<Kind>)
      returns (xs: seq<Action>, c: Cluster)
    requires HasServed(codec, c0, t, log, 0) && m <= |log| && Servable(codec, log) && Lossless(codec)
    requires OfKinds(log, kinds)
    ensures Dispatches(xs, kinds) && Execute(codec, c0, xs) == Some(c) && HasServed(codec, c, t, log, m)
  {
    xs, c := [], c0;
    if m > 0 {
      xs, c := ServesLog(codec, c0, t, log, m - 1, kinds);
      ProposesNext(codec, c, t, log, m - 1);
      AnswersNext(codec, c, t, log, m - 1);
      xs := NextRun(codec, c0, xs, c, Dispatch(0, log[m - 1]));
      c := Do(codec, c, Dispatch(0, log[m - 1]));
      xs := NextRun(codec, c0, xs, c, Commit(m - 1));
      c := Do(codec, c, Commit(m - 1));
      xs := NextRun(codec, c0, xs, c, Deliver(0));
      c := Do(codec, c, Deliver(0));
      xs := NextRun(codec, c0, xs, c, Reply(m - 1));
      c := Do(codec, c, Reply(m - 1));
    }
  }

  /** The node has restarted from the first entry and has applied `m` entries again. */
  ghost predicate HasReplayed(codec: Codec, c: Cluster, t: Tree<Bytes>, log: seq<Command>, m: nat)
    requires m <= |log|
  {
    && c.origin == t && |c.committed| == |log| && |c.requests| == |log| && |c.nodes| == 1
    && c.nodes[0] == Node(false, true, m, |log|, Run(Run(t, log), log[..m]))
    && (forall k :: 0 <= k < |log| ==> c.committed[k] == Entry(k, codec.pack(log[k])))
    && (forall k :: 0 <= k < |log| ==> ServedRequest(c.requests[k], t, log, k))
  }

  lemma RestartsServed(codec: Codec, c: Cluster, t: Tree<Bytes>, log: seq<Command>)
    requires HasServed(codec, c, t, log, |log|)
    ensures Enabled(c, Restart(0, 0, None)) && HasReplayed(codec, Do(codec, c, Restart(0, 0, None)), t, log, 0)
  {
    var c' := Do(codec, c, Restart(0, 0, None));
    assert log[..|log|] == log && log[..0] == [];
    forall k | 0 <= k < |log| ensures ServedRequest(c'.requests[k], t, log, k) {
      assert ServedRequest(c.requests[k], t, log, k);
    }
  }

  lemma ReplaysNext(codec: Codec, c: Cluster, t: Tree<Bytes>, log: seq<Command>, m: nat)
    requires m < |log| && HasReplayed(codec, c, t, log, m) && Servable(codec, log) && Lossless(codec)
    ensures Enabled(c, Deliver(0)) && HasReplayed(codec, Do(codec, c, Deliver(0)), t, log, m + 1)
  {
    assert ServedRequest(c.requests[m], t, log, m);
    assert Meaning(codec, codec.pack(log[m])) == log[m];
    RunNext(Run(t, log), log, m);
  }

  lemma {:induction false} ReplaysLog(codec: Codec, c0: Cluster, before: seq<Action>, c1: Cluster, t: Tree<Bytes>,
                                      log: seq<Command>, m: nat, kinds: set<Kind>)
      returns (xs: seq<Action>, c: Cluster)
    requires Execute(codec, c0, before) == Some(c1) && Dispatches(before, kinds) && HasReplayed(codec, c1, t, log, 0)
    requires m <= |log| && Servable(codec, log) && Lossless(codec)
    ensures Dispatches(xs, kinds) && Execute(codec, c0, xs) == Some(c) && HasReplayed(codec, c, t, log, m)
  {
    xs, c := before, c1;
    if m > 0 {
      xs, c := ReplaysLog(codec, c0, before, c1, t, log, m - 1, kinds);
      ReplaysNext(codec, c, t, log, m - 1);
      xs := NextRun(codec, c0, xs, c, Deliver(0));
      c := Do(codec, c, Deliver(0));
    }
  }

  function OneLeader(t: Tree<Bytes>): Cluster
  {
    Cluster(t, [], [], [Node(true, false, 0, 0, t)])
  }

  /** Served, restarted, applied again: a caught-up node that holds something else. */
  lemma HarmIsRun(codec: Codec, kind: Kind, t: Tree<Bytes>, log: seq<Command>, kinds: set<Kind>)
      returns (xs: seq<Action>, c: Cluster)
    requires Lossless(codec) && Harm(kind, t, log) && Servable(codec, log) && kind in kinds
    ensures Dispatches(xs, kinds) && Execute(codec, OneLeader(t), xs) == Some(c) && HasReplayed(codec, c, t, log, |log|)
  {
    assert log[..0] == [];
    xs, c := ServesLog(codec, OneLeader(t), t, log, |log|, kinds);
    RestartsServed(codec, c, t, log);
    xs := NextRun(codec, OneLeader(t), xs, c, Restart(0, 0, None));
    c := Do(codec, c, Restart(0, 0, None));
    xs, c := ReplaysLog(codec, OneLeader(t), xs, c, t, log, |log|, kinds);
  }

  lemma ReplayedIsNotReflected(codec: Codec, c: Cluster, t: Tree<Bytes>, log: seq<Command>, k: nat)
    requires Lossless(codec) && HasReplayed(codec, c, t, log, |log|) && Servable(codec, log) && k < |log|
    requires Run(Run(t, log), log) != Run(t, log)
    ensures !Reflects(codec, c, c.nodes[0], k)
  {
    forall j | 0 <= j < |log| ensures Log(codec, c.committed)[j] == log[j] {
      assert c.committed[j] == Entry(j, codec.pack(log[j]));
    }
    assert Log(codec, c.committed) == log;
    NothingToCatchUp(codec, c, c.nodes[0]);
    assert log[..|log|] == log;
    assert log == log[..k] + log[k..] && log[k..][0] == log[k] && log[k..][1..] == log[k + 1..|log|];
    RunAppend(t, log[..k], log[k..]);
    RunFirst(Run(t, log[..k]), log[k..]);
  }

  lemma HarmfulKindBreaksAcks(codec: Codec, kinds: set<Kind>, kind: Kind)
    requires Lossless(codec) && Fits(codec) && kind in kinds && Mutating(kind) && !Repeatable(kind)
    ensures !AcksAlwaysHold(codec, kinds)
  {
    var t, log := HarmfulLog(kind);
    var xs, c := HarmIsRun(codec, kind, t, log, kinds);
    var r := |log| - 1;
    assert ServedRequest(c.requests[r], t, log, r);
    HarmReplays(t, log);
    forall k: nat | OnlyPosition(c, r, k) ensures !Reflected(codec, c, c.requests[r].command, k) {
      ReplayedIsNotReflected(codec, c, t, log, k);
    }
    assert !AckHolds(codec, OneLeader(t), xs, r);
  }

  lemma HarmReplays(t: Tree<Bytes>, log: seq<Command>)
    requires Replayed(t, log, 0, |log|, None) != Run(t, log)
    ensures Run(Run(t, log), log) != Run(t, log)
  {
    assert log[..|log|] == log && log[0..] == log;
  }

  /** Acknowledged writes and restarts, exactly: whatever clients send of these kinds, every acknowledged
      write is reflected by every node that ever applied it, once caught up, in every run with restarts,
      if and only if the mutating kinds among them may be replayed. */
  lemma AcksHoldExactly(codec: Codec, kinds: set<Kind>)
    requires Lossless(codec) && Fits(codec)
    ensures AcksAlwaysHold(codec, kinds) <==> forall kind :: kind in kinds && Mutating(kind) ==> Repeatable(kind)
  {
    if forall kind :: kind in kinds && Mutating(kind) ==> Repeatable(kind) {
      forall c0: Cluster, actions: seq<Action>, r: nat | Initial(c0) && Dispatches(actions, kinds)
        ensures AckHolds(codec, c0, actions, r)
      {
        ReplayableAcksHold(codec, kinds, c0, actions, r);
      }
    }
    forall kind | kind in kinds && Mutating(kind) && !Repeatable(kind) ensures !AcksAlwaysHold(codec, kinds) {
      HarmfulKindBreaksAcks(codec, kinds, kind);
    }
  }
}
