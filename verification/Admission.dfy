/**
  What a node makes of a command that reaches it, over whole runs: which requests ever get into the log,
  by the kind of the command, the node's leadership at that moment and the packed size; and where a write
  has been applied by the time it is acknowledged.
 */
module Admission {
  import opened Basics
  import opened Commands
  import opened Replica
  import opened Cluster

  /** The kinds that go through the log. */
  predicate GoesThroughLog(k: Kind)
  {
    match k
    case CreateFile => true
    case WriteFile => true
    case AppendFile => true
    case DeleteFile => true
    case CreateDir => true
    case DeleteDir => true
    case RenameEntry => true
    case _ => false
  }

  /* ---------- What the rest of a run keeps ---------- */

  /** A request keeps its command and node, and never changes between proposed, refused and local. */
  ghost predicate SameFate(q: Request, q': Request)
  {
    && q'.command == q.command && q'.node == q.node
    && (q'.phase.Proposed? || q'.phase.Answered? <==> q.phase.Proposed? || q.phase.Answered?)
    && (q'.phase.Refused? <==> q.phase.Refused?)
  }

  lemma StepKeepsFate(codec: Codec, c: Cluster, a: Action, r: nat)
    requires Enabled(c, a) && r < |c.requests|
    ensures r < |Do(codec, c, a).requests| && SameFate(c.requests[r], Do(codec, c, a).requests[r])
  {
  }

  lemma {:induction false} ExecuteAppend(codec: Codec, c: Cluster, xs: seq<Action>, ys: seq<Action>)
    ensures Execute(codec, c, xs + ys) ==
            match Execute(codec, c, xs) case None => None case Some(m) => Execute(codec, m, ys)
  {
    if ys == [] {
      assert xs + ys == xs;
    } else {
      assert (xs + ys)[..|xs + ys| - 1] == xs + ys[..|ys| - 1];
      ExecuteAppend(codec, c, xs, ys[..|ys| - 1]);
    }
  }

  lemma {:induction false} RunKeepsFate(codec: Codec, c: Cluster, ys: seq<Action>, r: nat)
    requires Execute(codec, c, ys).Some? && r < |c.requests|
    ensures var c' := Execute(codec, c, ys).value;
            r < |c'.requests| && SameFate(c.requests[r], c'.requests[r])
  {
    if ys != [] {
      var before := ys[..|ys| - 1];
      RunKeepsFate(codec, c, before, r);
      StepKeepsFate(codec, Execute(codec, c, before).value, ys[|ys| - 1], r);
    }
  }

  /* ---------- Who gets into the log ---------- */

  /** The request never came near the log: no entry is its own, and it was not answered with success. */
  ghost predicate KeptOut(c: Cluster, r: nat)
    requires r < |c.requests|
  {
    && !c.requests[r].phase.Proposed? && !c.requests[r].phase.Answered?
    && forall k :: 0 <= k < |c.committed| ==> c.committed[k].request != r
  }

  /** Admission, exactly: a command dispatched at any point of any run is proposed if and only if it is one
      of the seven mutating kinds, its node leads at that moment, and it packs to at most a hundred
      mebibytes.  If not, it stands at no committed position and is never answered with success, whatever
      happens later: a read is served by the node itself, anything else is refused. */
  lemma AdmissionExactly(codec: Codec, c0: Cluster, xs: seq<Action>, n: nat, cmd: Command, ys: seq<Action>)
    requires Initial(c0) && Execute(codec, c0, xs + [Dispatch(n, cmd)] + ys).Some?
    ensures Execute(codec, c0, xs).Some? && n < |Execute(codec, c0, xs).value.nodes|
    ensures var before, c := Execute(codec, c0, xs).value, Execute(codec, c0, xs + [Dispatch(n, cmd)] + ys).value;
            var r := |before.requests|;
            && r < |c.requests| && c.requests[r].command == cmd && c.requests[r].node == n
            && (c.requests[r].phase.Proposed? || c.requests[r].phase.Answered? <==>
                  && GoesThroughLog(cmd.kind) && before.nodes[n].leads
                  && |codec.pack(cmd)| <= 100 * 1024 * 1024)
            && (c.requests[r].phase.Local? <==> cmd.kind.ReadFile? || cmd.kind.ListDir?)
            && (!(c.requests[r].phase.Proposed? || c.requests[r].phase.Answered?) ==> KeptOut(c, r))
  {
    ExecuteAppend(codec, c0, xs + [Dispatch(n, cmd)], ys);
    ExecuteAppend(codec, c0, xs, [Dispatch(n, cmd)]);
    assert [Dispatch(n, cmd)][..0] == [];
    var before := Execute(codec, c0, xs).value;
    RunKeepsFate(codec, Do(codec, before, Dispatch(n, cmd)), ys, |before.requests|);
    RunsAreRight(codec, c0, xs + [Dispatch(n, cmd)] + ys);
    OnlyProposedIsCommitted(codec, Execute(codec, c0, xs + [Dispatch(n, cmd)] + ys).value, |before.requests|);
  }

  lemma OnlyProposedIsCommitted(codec: Codec, c: Cluster, r: nat)
    requires Right(codec, c) && r < |c.requests|
    ensures c.requests[r].phase.Proposed? || c.requests[r].phase.Answered? || KeptOut(c, r)
  {
    forall k | 0 <= k < |c.committed| && c.committed[k].request == r
      ensures c.requests[r].phase.Proposed? || c.requests[r].phase.Answered?
    {
      assert EntryRight(codec, c, k);
    }
  }

  /** The step takes the leadership away from node `n`. */
  predicate Deposes(a: Action, n: nat)
  {
    (a.Restart? && a.node == n) || a == Lead(n, false)
  }

  /** No step from number `k` on took the leadership away from node `n`. */
  ghost predicate LeadsSince(actions: seq<Action>, n: nat, k: nat)
  {
    forall j :: k <= j < |actions| ==> !Deposes(actions[j], n)
  }

  /** Step `k` made node `n` the leader, and nothing has changed that since. */
  ghost predicate MadeLeader(actions: seq<Action>, n: nat, k: nat)
  {
    k < |actions| && actions[k] == Lead(n, true) && LeadsSince(actions, n, k + 1)
  }

  lemma LeadsSinceNext(actions: seq<Action>, a: Action, n: nat, k: nat)
    requires k <= |actions|
    ensures LeadsSince(actions + [a], n, k) <==> LeadsSince(actions, n, k) && !Deposes(a, n)
  {
    var all := actions + [a];
    if LeadsSince(all, n, k) {
      assert all[|actions|] == a;
      forall j | k <= j < |actions| ensures !Deposes(actions[j], n) {
        assert all[j] == actions[j];
      }
    }
  }

  lemma MadeLeaderNext(actions: seq<Action>, a: Action, n: nat)
    ensures (exists k: nat :: MadeLeader(actions + [a], n, k)) <==>
              a == Lead(n, true) || ((exists k: nat :: MadeLeader(actions, n, k)) && !Deposes(a, n))
  {
    var all := actions + [a];
    if a == Lead(n, true) {
      assert MadeLeader(all, n, |actions|);
    } else if (exists k: nat :: MadeLeader(actions, n, k)) && !Deposes(a, n) {
      var k: nat :| MadeLeader(actions, n, k);
      LeadsSinceNext(actions, a, n, k + 1);
      assert MadeLeader(all, n, k);
    } else if exists k: nat :: MadeLeader(all, n, k) {
      var k: nat :| MadeLeader(all, n, k);
      assert k < |actions|;
      LeadsSinceNext(actions, a, n, k + 1);
      assert MadeLeader(actions, n, k);
    }
  }

  /** A node that leads was told so after its last restart, and not told otherwise since. */
  lemma {:induction false} LeadersWereTold(codec: Codec, c0: Cluster, actions: seq<Action>, n: nat)
    requires Execute(codec, c0, actions).Some? && n < |c0.nodes|
    ensures var c := Execute(codec, c0, actions).value;
            && |c.nodes| == |c0.nodes|
            && (c.nodes[n].leads <==>
                  (c0.nodes[n].leads && LeadsSince(actions, n, 0)) || exists k: nat :: MadeLeader(actions, n, k))
  {
    if actions != [] {
      var before, a := actions[..|actions| - 1], actions[|actions| - 1];
      LeadersWereTold(codec, c0, before, n);
      FlagStep(codec, Execute(codec, c0, before).value, a, n);
      assert actions == before + [a];
      LeadsSinceNext(before, a, n, 0);
      MadeLeaderNext(before, a, n);
    }
  }

  lemma FlagStep(codec: Codec, c: Cluster, a: Action, n: nat)
    requires Enabled(c, a) && n < |c.nodes|
    ensures var c' := Do(codec, c, a);
            && |c'.nodes| == |c.nodes|
            && (c'.nodes[n].leads <==> a == Lead(n, true) || (c.nodes[n].leads && !Deposes(a, n)))
  {
  }

  /* ---------- The node that acknowledges has applied ---------- */

  /** A closure that was completed by applying an entry was so by the request's own node. */
  ghost predicate AppliedAtHome(c: Cluster, q: Request)
  {
    (q.phase.Proposed? || q.phase.Answered?) && q.phase.closure.Applied? ==>
      q.node < |c.nodes| && q.phase.closure.at < c.nodes[q.node].reached
  }

  ghost predicate AllAtHome(c: Cluster)
  {
    forall r :: 0 <= r < |c.requests| ==> AppliedAtHome(c, c.requests[r])
  }

  /** No step makes a node forget what it has applied. */
  lemma ReachedGrows(codec: Codec, c: Cluster, a: Action)
    requires Enabled(c, a)
    ensures var c' := Do(codec, c, a);
            |c'.nodes| == |c.nodes| && forall n :: 0 <= n < |c.nodes| ==> c.nodes[n].reached <= c'.nodes[n].reached
  {
  }

  lemma StepKeepsHome(codec: Codec, c: Cluster, a: Action)
    requires AllAtHome(c) && Enabled(c, a)
    ensures AllAtHome(Do(codec, c, a))
  {
    var c' := Do(codec, c, a);
    ReachedGrows(codec, c, a);
    forall r | 0 <= r < |c'.requests| ensures AppliedAtHome(c', c'.requests[r]) {
      if r < |c.requests| {
        assert AppliedAtHome(c, c.requests[r]);
        ClosureFrom(codec, c, a, r);
      }
    }
  }

  /** Where the closure of a request comes from in one step. */
  lemma ClosureFrom(codec: Codec, c: Cluster, a: Action, r: nat)
    requires Enabled(c, a) && r < |c.requests| && AppliedAtHome(c, c.requests[r])
    ensures var c' := Do(codec, c, a);
            && r < |c'.requests| && c'.requests[r].node == c.requests[r].node
            && ((c'.requests[r].phase.Proposed? || c'.requests[r].phase.Answered?)
                && c'.requests[r].phase.closure.Applied? ==>
                  || ((c.requests[r].phase.Proposed? || c.requests[r].phase.Answered?)
                      && c.requests[r].phase.closure == c'.requests[r].phase.closure)
                  || (a == Deliver(c.requests[r].node)
                      && c'.requests[r].phase.closure.at < c'.nodes[a.node].reached))
  {
  }

  lemma {:induction false} RunsStayAtHome(codec: Codec, c0: Cluster, actions: seq<Action>)
    requires Initial(c0) && Execute(codec, c0, actions).Some?
    ensures AllAtHome(Execute(codec, c0, actions).value)
  {
    if actions != [] {
      var before := actions[..|actions| - 1];
      RunsStayAtHome(codec, c0, before);
      StepKeepsHome(codec, Execute(codec, c0, before).value, actions[|actions| - 1]);
    }
  }

  /** Read your own write: the node that acknowledged a write has applied it; and, if it is calm, holds its
      outcome followed by that of later entries. */
  lemma AcknowledgedAtHome(codec: Codec, c0: Cluster, actions: seq<Action>, r: nat) returns (k: nat)
    requires Lossless(codec) && Initial(c0) && Execute(codec, c0, actions).Some?
    requires r < |Execute(codec, c0, actions).value.requests|
    requires var phase := Execute(codec, c0, actions).value.requests[r].phase; phase.Answered? && phase.success
    ensures var c := Execute(codec, c0, actions).value;
            var q := c.requests[r];
            && OnlyPosition(c, r, k) && q.node < |c.nodes| && k < c.nodes[q.node].reached
            && (CalmNode(codec, c, c.nodes[q.node]) ==> Reflects(codec, c, c.nodes[q.node], k))
  {
    RunsAreRight(codec, c0, actions);
    RunsStayAtHome(codec, c0, actions);
    k := AcknowledgedWritesHold(codec, c0, actions, r);
    var c := Execute(codec, c0, actions).value;
    assert RequestRight(codec, c, r) && AppliedAtHome(c, c.requests[r]);
  }

  /* ---------- An error says nothing about the log ---------- */

  /** A proposal that nobody has committed yet can be answered with an error first and committed after. */
  lemma ErrorMayStillCommit(codec: Codec, c: Cluster, r: nat)
    requires r < |c.requests| && c.requests[r].phase == Proposed(Pending)
    requires forall k :: 0 <= k < |c.committed| ==> c.committed[k].request != r
    ensures Execute(codec, c, [Abandon(r), Reply(r), Commit(r)]).Some?
    ensures var c' := Execute(codec, c, [Abandon(r), Reply(r), Commit(r)]).value;
            && r < |c'.requests| && c'.requests[r].phase == Answered(Abandoned, false)
            && c'.committed == c.committed + [Entry(r, codec.pack(c.requests[r].command))]
  {
    var a, b, d := Abandon(r), Reply(r), Commit(r);
    assert [a, b, d][..2] == [a, b] && [a, b][..1] == [a] && [a][..0] == [];
    var c1 := Do(codec, c, a);
    assert Execute(codec, c, [a]) == Some(c1);
    var c2 := Do(codec, c1, b);
    assert Execute(codec, c, [a, b]) == Some(c2);
    assert Enabled(c2, d);
  }
}
