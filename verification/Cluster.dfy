/**
  Requests, the committed log and the nodes that apply it.

  Raft is an ordered list of committed entries that only grows.  A proposal is committed at most
  once; its closure is completed either when its own node applies the entry, or with an error at
  any time, in which case the entry may still be committed later.  A node that restarts, between
  entries or inside one, keeps its directory and is fed the log again from an earlier entry, because
  no snapshot is ever restored.

  A node applies an entry in one step here.  `NodeEngine` says how the step system of the storage
  engine fits in, and what a read that runs beside the applier sees.
 */
module Cluster {
  import opened Basics
  import opened FileTree
  import opened Commands
  import opened Replica
  import opened Replay

  /** A log entry and the request that proposed it. */
  datatype Entry = Entry(request: nat, payload: Bytes)

  /** Where a closure's outcome came from: log position `at`, applied by a node that had restarted by then
      or had not; or Raft itself. */
  datatype Closure = Pending | Applied(at: nat, status: Status, restarted: bool) | Abandoned

  datatype Phase =
    | Proposed(closure: Closure)
    | Refused
    | Local
    | Answered(closure: Closure, success: bool)

  /** A command that reached `dispatch_command` of a node, and what became of it. */
  datatype Request = Request(command: Command, node: nat, phase: Phase)

  /** A node has applied entries up to `applied` since it last started, and up to `reached` ever. */
  datatype Node = Node(leads: bool, restarted: bool, applied: nat, reached: nat, tree: Tree<Bytes>)

  datatype Cluster = Cluster(origin: Tree<Bytes>, committed: seq<Entry>, requests: seq<Request>, nodes: seq<Node>)

  datatype Action =
    | Dispatch(node: nat, command: Command)
    | Commit(request: nat)
    | Deliver(node: nat)
    | Abandon(request: nat)
    | Reply(request: nat)
    | Lead(node: nat, leads: bool)
    | Restart(node: nat, start: nat, left: Option<nat>)

  function Log(codec: Codec, committed: seq<Entry>): (log: seq<Command>)
    ensures |log| == |committed| && forall i :: 0 <= i < |committed| ==> log[i] == Meaning(codec, committed[i].payload)
  {
    Meanings(codec, seq(|committed|, i requires 0 <= i < |committed| => Delivered(committed[i].payload, false)))
  }

  predicate IsCommitted(c: Cluster, r: nat)
  {
    exists k :: 0 <= k < |c.committed| && c.committed[k].request == r
  }

  /** The request went through `raft_node_->apply`. */
  predicate WasProposed(q: Request)
  {
    q.phase.Proposed? || q.phase.Answered?
  }

  /** `dispatch_command`, and `apply_write_command` up to the proposal. */
  function FirstPhase(codec: Codec, n: Node, cmd: Command): Phase
  {
    if Mutating(cmd.kind) then
      if n.leads && |codec.pack(cmd)| <= SIZE_LIMIT then Proposed(Pending) else Refused
    else if cmd.kind.ReadFile? || cmd.kind.ListDir? then Local
    else Refused
  }

  predicate Enabled(c: Cluster, a: Action)
  {
    match a
    case Dispatch(n, _) => n < |c.nodes|
    case Commit(r) => r < |c.requests| && WasProposed(c.requests[r]) && !IsCommitted(c, r)
    case Deliver(n) => n < |c.nodes| && c.nodes[n].applied < |c.committed|
    case Abandon(r) => r < |c.requests| && c.requests[r].phase == Proposed(Pending)
    case Reply(r) => r < |c.requests| && c.requests[r].phase.Proposed? && !c.requests[r].phase.closure.Pending?
    case Lead(n, _) => n < |c.nodes|
    case Restart(n, start, _) => n < |c.nodes| && start <= c.nodes[n].applied
  }

  /** The closure of an entry delivered at position `k`, if this node proposed it and still waits. */
  function Settle(c: Cluster, n: nat, k: nat, status: Status): seq<Request>
    requires k < |c.committed| && n < |c.nodes|
  {
    var r := c.committed[k].request;
    if r < |c.requests| && c.requests[r].node == n && c.requests[r].phase == Proposed(Pending)
    then c.requests[r := c.requests[r].(phase := Proposed(Applied(k, status, c.nodes[n].restarted)))]
    else c.requests
  }

  function DoDeliver(codec: Codec, c: Cluster, n: nat): Cluster
    requires Enabled(c, Deliver(n))
  {
    var node := c.nodes[n];
    var k := node.applied;
    var done := Exec(node.tree, Meaning(codec, c.committed[k].payload));
    c.(requests := Settle(c, n, k, done.status),
       nodes := c.nodes[n := node.(applied := k + 1, reached := if node.reached <= k then k + 1 else node.reached,
                                   tree := done.tree)])
  }

  /** Nobody waits any more for the closures of a process that ended. */
  function Orphaned(q: Request, n: nat): Request
  {
    if q.node == n && q.phase == Proposed(Pending) then q.(phase := Proposed(Abandoned)) else q
  }

  /** The node as the end of its process leaves it: between entries, or inside the next one. */
  function Interrupted(codec: Codec, c: Cluster, n: Node, left: Option<nat>): Node
  {
    if left.Some? && n.applied < |c.committed|
    then n.(tree := HalfDone(n.tree, Meaning(codec, c.committed[n.applied].payload), left.value),
            reached := if n.reached <= n.applied then n.applied + 1 else n.reached)
    else n
  }

  function DoRestart(codec: Codec, c: Cluster, n: nat, start: nat, left: Option<nat>): Cluster
    requires Enabled(c, Restart(n, start, left))
  {
    var node := Interrupted(codec, c, c.nodes[n], left);
    c.(requests := seq(|c.requests|, r requires 0 <= r < |c.requests| => Orphaned(c.requests[r], n)),
       nodes := c.nodes[n := node.(leads := false, restarted := true, applied := start)])
  }

  function Do(codec: Codec, c: Cluster, a: Action): Cluster
    requires Enabled(c, a)
  {
    match a
    case Dispatch(n, cmd) => c.(requests := c.requests + [Request(cmd, n, FirstPhase(codec, c.nodes[n], cmd))])
    case Commit(r) => c.(committed := c.committed + [Entry(r, codec.pack(c.requests[r].command))])
    case Deliver(n) => DoDeliver(codec, c, n)
    case Abandon(r) => c.(requests := c.requests[r := c.requests[r].(phase := Proposed(Abandoned))])
    case Reply(r) =>
      var closure := c.requests[r].phase.closure;
      var success := closure.Applied? && closure.status.Fine?;
      c.(requests := c.requests[r := c.requests[r].(phase := Answered(closure, success))])
    case Lead(n, leads) => c.(nodes := c.nodes[n := c.nodes[n].(leads := leads)])
    case Restart(n, start, left) => DoRestart(codec, c, n, start, left)
  }

  function Execute(codec: Codec, c: Cluster, actions: seq<Action>): Option<Cluster>
  {
    if actions == [] then Some(c)
    else
      match Execute(codec, c, actions[..|actions| - 1])
      case None => None
      case Some(m) => if Enabled(m, actions[|actions| - 1]) then Some(Do(codec, m, actions[|actions| - 1])) else None
  }

  ghost predicate Initial(c: Cluster)
  {
    && WellFormed(c.origin) && c.committed == [] && c.requests == []
    && forall n :: 0 <= n < |c.nodes| ==> InitialNode(c, c.nodes[n])
  }

  predicate InitialNode(c: Cluster, n: Node)
  {
    n.applied == 0 && n.reached == 0 && !n.restarted && n.tree == c.origin
  }

  /* ---------- Invariant ---------- */

  /** No restart, or the first `m` entries may be replayed. */
  ghost predicate Calm(codec: Codec, c: Cluster, restarted: bool, m: nat)
  {
    restarted ==> forall k :: 0 <= k < m && k < |c.committed| ==> Repeatable(Log(codec, c.committed)[k].kind)
  }

  /** The node's tree once it has applied again what it had applied before. */
  function CaughtUp(codec: Codec, c: Cluster, n: Node): Tree<Bytes>
  {
    var log := Log(codec, c.committed);
    if n.applied <= n.reached <= |log| then Run(n.tree, log[n.applied..n.reached]) else n.tree
  }

  ghost predicate EntryRight(codec: Codec, c: Cluster, k: nat)
    requires k < |c.committed|
  {
    var r := c.committed[k].request;
    && r < |c.requests| && WasProposed(c.requests[r])
    && c.committed[k].payload == codec.pack(c.requests[r].command)
    && (forall j :: 0 <= j < |c.committed| && c.committed[j].request == r ==> j == k)
    && (c.requests[r].phase == Proposed(Pending) ==> AheadOf(c, c.requests[r].node, k))
  }

  /** The node has never applied entry `k`. */
  ghost predicate AheadOf(c: Cluster, node: nat, k: nat)
  {
    node < |c.nodes| ==> c.nodes[node].reached <= k
  }

  ghost predicate NodeRight(codec: Codec, c: Cluster, n: Node)
  {
    && n.applied <= n.reached <= |c.committed| && WellFormed(n.tree)
    && (Calm(codec, c, n.restarted, n.reached) ==>
          CaughtUp(codec, c, n) == Run(c.origin, Log(codec, c.committed)[..n.reached]))
  }

  ghost predicate ClosureRight(codec: Codec, c: Cluster, r: nat, closure: Closure)
  {
    closure.Applied? ==>
      && closure.at < |c.committed| && c.committed[closure.at].request == r
      && (Calm(codec, c, closure.restarted, closure.at) ==> closure.status == StatusAt(codec, c, closure.at))
  }

  /** The status of an entry on a tree that nothing disturbed. */
  function StatusAt(codec: Codec, c: Cluster, k: nat): Status
    requires k < |c.committed|
  {
    var log := Log(codec, c.committed);
    Exec(Run(c.origin, log[..k]), log[k]).status
  }

  ghost predicate RequestRight(codec: Codec, c: Cluster, r: nat)
    requires r < |c.requests|
  {
    var q := c.requests[r];
    match q.phase
    case Proposed(closure) => Proposable(codec, q.command) && ClosureRight(codec, c, r, closure)
    case Answered(closure, success) =>
      && Proposable(codec, q.command) && ClosureRight(codec, c, r, closure)
      && (success ==> closure.Applied? && closure.status.Fine?)
    case Local => true
    case Refused => true
  }

  predicate Proposable(codec: Codec, cmd: Command)
  {
    Mutating(cmd.kind) && |codec.pack(cmd)| <= SIZE_LIMIT
  }

  ghost predicate Right(codec: Codec, c: Cluster)
  {
    && WellFormed(c.origin)
    && (forall k :: 0 <= k < |c.committed| ==> EntryRight(codec, c, k))
    && (forall n :: 0 <= n < |c.nodes| ==> NodeRight(codec, c, c.nodes[n]))
    && (forall r :: 0 <= r < |c.requests| ==> RequestRight(codec, c, r))
  }

  /* ---------- Every step keeps it ---------- */

  /** A longer log changes nothing about earlier positions. */
  lemma LogExtends(codec: Codec, c: Cluster, c': Cluster, k: nat)
    requires c.committed <= c'.committed && k <= |c.committed|
    ensures Log(codec, c'.committed)[..k] == Log(codec, c.committed)[..k]
  {
  }

  /** The cluster has at least the entries that it had. */
  ghost predicate Grows(c: Cluster, c': Cluster)
  {
    c'.origin == c.origin && c.committed <= c'.committed
  }

  /** What is calm later was calm before. */
  lemma CalmBefore(codec: Codec, c: Cluster, c': Cluster, x: bool, x': bool, m: nat, m': nat)
    requires c.committed <= c'.committed && (x ==> x') && m <= m'
    requires Calm(codec, c', x', m')
    ensures Calm(codec, c, x, m)
  {
    var log, log' := Log(codec, c.committed), Log(codec, c'.committed);
    forall k | x && 0 <= k < m && k < |c.committed| ensures Repeatable(log[k].kind) {
      assert log[k] == log'[k];
    }
  }

  lemma NodeStaysRight(codec: Codec, c: Cluster, c': Cluster, n: Node)
    requires Grows(c, c') && NodeRight(codec, c, n)
    ensures NodeRight(codec, c', n)
  {
    if Calm(codec, c', n.restarted, n.reached) {
      CalmBefore(codec, c, c', n.restarted, n.restarted, n.reached, n.reached);
      LogExtends(codec, c, c', n.reached);
      var log, log' := Log(codec, c.committed), Log(codec, c'.committed);
      assert log'[n.applied..n.reached] == log[n.applied..n.reached];
    }
  }

  lemma ClosureStaysRight(codec: Codec, c: Cluster, c': Cluster, r: nat, closure: Closure)
    requires Grows(c, c') && ClosureRight(codec, c, r, closure)
    ensures ClosureRight(codec, c', r, closure)
  {
    if closure.Applied? && Calm(codec, c', closure.restarted, closure.at) {
      CalmBefore(codec, c, c', closure.restarted, closure.restarted, closure.at, closure.at);
      LogExtends(codec, c, c', closure.at);
    }
  }

  lemma RequestStaysRight(codec: Codec, c: Cluster, c': Cluster, r: nat)
    requires Grows(c, c') && r < |c.requests| && r < |c'.requests| && c'.requests[r] == c.requests[r]
    requires RequestRight(codec, c, r)
    ensures RequestRight(codec, c', r)
  {
    var phase := c.requests[r].phase;
    if phase.Proposed? || phase.Answered? {
      ClosureStaysRight(codec, c, c', r, phase.closure);
    }
  }

  lemma CommitKeepsRight(codec: Codec, c: Cluster, r: nat)
    requires Right(codec, c) && Enabled(c, Commit(r))
    ensures Right(codec, Do(codec, c, Commit(r)))
  {
    var c' := Do(codec, c, Commit(r));
    forall k | 0 <= k < |c'.committed| ensures EntryRight(codec, c', k) {
      CommitKeepsEntry(codec, c, r, k);
    }
    forall n | 0 <= n < |c'.nodes| ensures NodeRight(codec, c', c'.nodes[n]) {
      NodeStaysRight(codec, c, c', c.nodes[n]);
    }
    forall q | 0 <= q < |c'.requests| ensures RequestRight(codec, c', q) {
      RequestStaysRight(codec, c, c', q);
    }
  }

  lemma CommitKeepsEntry(codec: Codec, c: Cluster, r: nat, k: nat)
    requires Right(codec, c) && Enabled(c, Commit(r)) && k <= |c.committed|
    ensures EntryRight(codec, Do(codec, c, Commit(r)), k)
  {
    if k < |c.committed| {
      assert EntryRight(codec, c, k);
    } else if c.requests[r].node < |c.nodes| {
      assert NodeRight(codec, c, c.nodes[c.requests[r].node]);
    }
  }

  /** Changing the phase of one request, from proposed to settled or answered. */
  lemma PhaseKeepsRight(codec: Codec, c: Cluster, r: nat, phase: Phase)
    requires Right(codec, c) && r < |c.requests| && c.requests[r].phase.Proposed?
    requires (phase.Proposed? && !phase.closure.Pending?) || phase.Answered?
    requires RequestRight(codec, c.(requests := c.requests[r := c.requests[r].(phase := phase)]), r)
    ensures Right(codec, c.(requests := c.requests[r := c.requests[r].(phase := phase)]))
  {
    var c' := c.(requests := c.requests[r := c.requests[r].(phase := phase)]);
    forall k | 0 <= k < |c'.committed| ensures EntryRight(codec, c', k) {
      assert EntryRight(codec, c, k);
    }
    forall n | 0 <= n < |c'.nodes| ensures NodeRight(codec, c', c'.nodes[n]) {
      NodeStaysRight(codec, c, c', c.nodes[n]);
    }
    forall q | 0 <= q < |c'.requests| ensures RequestRight(codec, c', q) {
      if q != r {
        RequestStaysRight(codec, c, c', q);
      }
    }
  }

  /** Changing one node, which has not applied more than before. */
  lemma NodeKeepsRight(codec: Codec, c: Cluster, n: nat, node: Node)
    requires Right(codec, c) && n < |c.nodes|
    requires NodeRight(codec, c.(nodes := c.nodes[n := node]), node)
    requires forall k :: 0 <= k < |c.committed| ==> NobodyWaits(c, n, node, k)
    ensures Right(codec, c.(nodes := c.nodes[n := node]))
  {
    var c' := c.(nodes := c.nodes[n := node]);
    forall k | 0 <= k < |c'.committed| ensures EntryRight(codec, c', k) {
      assert EntryRight(codec, c, k) && NobodyWaits(c, n, node, k);
    }
    forall m | 0 <= m < |c'.nodes| ensures NodeRight(codec, c', c'.nodes[m]) {
      if m != n {
        NodeStaysRight(codec, c, c', c.nodes[m]);
      }
    }
    forall q | 0 <= q < |c'.requests| ensures RequestRight(codec, c', q) {
      RequestStaysRight(codec, c, c', q);
    }
  }

  /** Nobody on node `n` waits for entry `k`, if the node has applied it. */
  ghost predicate NobodyWaits(c: Cluster, n: nat, node: Node, k: nat)
    requires k < |c.committed|
  {
    var r := c.committed[k].request;
    r < |c.requests| && c.requests[r].node == n && c.requests[r].phase == Proposed(Pending) ==> node.reached <= k
  }

  lemma DispatchKeepsRight(codec: Codec, c: Cluster, n: nat, cmd: Command)
    requires Right(codec, c) && Enabled(c, Dispatch(n, cmd))
    ensures Right(codec, Do(codec, c, Dispatch(n, cmd)))
  {
    var c' := Do(codec, c, Dispatch(n, cmd));
    forall k | 0 <= k < |c'.committed| ensures EntryRight(codec, c', k) {
      assert EntryRight(codec, c, k);
    }
    forall m | 0 <= m < |c'.nodes| ensures NodeRight(codec, c', c'.nodes[m]) {
      NodeStaysRight(codec, c, c', c.nodes[m]);
    }
    forall q | 0 <= q < |c'.requests| ensures RequestRight(codec, c', q) {
      if q < |c.requests| {
        RequestStaysRight(codec, c, c', q);
      }
    }
  }

  /* ---------- Delivery ---------- */

  /** The request of the entry that a node is about to apply, with its closure completed. */
  lemma SettleKeepsRight(codec: Codec, c: Cluster, n: nat)
    requires Right(codec, c) && Enabled(c, Deliver(n))
    ensures var k := c.nodes[n].applied;
            var status := Exec(c.nodes[n].tree, Meaning(codec, c.committed[k].payload)).status;
            Right(codec, c.(requests := Settle(c, n, k, status)))
  {
    var k := c.nodes[n].applied;
    var r := c.committed[k].request;
    var status := Exec(c.nodes[n].tree, Meaning(codec, c.committed[k].payload)).status;
    assert EntryRight(codec, c, k) && NodeRight(codec, c, c.nodes[n]);
    if c.requests[r].node == n && c.requests[r].phase == Proposed(Pending) {
      assert RequestRight(codec, c, r);
      NothingToCatchUp(codec, c, c.nodes[n]);
      PhaseKeepsRight(codec, c, r, Proposed(Applied(k, status, c.nodes[n].restarted)));
    }
  }

  lemma NothingToCatchUp(codec: Codec, c: Cluster, n: Node)
    requires n.applied == n.reached <= |c.committed|
    ensures CaughtUp(codec, c, n) == n.tree
  {
    assert Log(codec, c.committed)[n.applied..n.reached] == [];
  }

  /** Applying an entry, for the first time or again. */
  lemma AppliedNodeIsRight(codec: Codec, c: Cluster, n: Node, n': Node)
    requires NodeRight(codec, c, n) && n.applied < |c.committed|
    requires n' == n.(applied := n.applied + 1, reached := if n.reached <= n.applied then n.applied + 1 else n.reached,
                      tree := Exec(n.tree, Meaning(codec, c.committed[n.applied].payload)).tree)
    ensures NodeRight(codec, c, n')
  {
    var log, k := Log(codec, c.committed), n.applied;
    ExecKeepsWellFormed(n.tree, log[k]);
    if Calm(codec, c, n'.restarted, n'.reached) {
      CalmBefore(codec, c, c, n.restarted, n'.restarted, n.reached, n'.reached);
    }
    if n.reached == k {
      NothingToCatchUp(codec, c, n);
      NothingToCatchUp(codec, c, n');
      RunNext(c.origin, log, k);
    } else {
      var rest := log[k..n.reached];
      assert rest[0] == log[k] && rest[1..] == log[k + 1..n.reached];
      RunFirst(n.tree, rest);
    }
  }

  lemma DeliverKeepsRight(codec: Codec, c: Cluster, n: nat)
    requires Right(codec, c) && Enabled(c, Deliver(n))
    ensures Right(codec, Do(codec, c, Deliver(n)))
  {
    var c', k := Do(codec, c, Deliver(n)), c.nodes[n].applied;
    SettleKeepsRight(codec, c, n);
    var m := c.(requests := c'.requests);
    assert NodeRight(codec, m, m.nodes[n]);
    AppliedNodeIsRight(codec, m, m.nodes[n], c'.nodes[n]);
    NodeStaysRight(codec, m, c', c'.nodes[n]);
    forall j | 0 <= j < |m.committed| ensures NobodyWaits(m, n, c'.nodes[n], j) {
      DeliveredIsSettled(codec, c, n, j);
    }
    NodeKeepsRight(codec, m, n, c'.nodes[n]);
  }

  lemma DeliveredIsSettled(codec: Codec, c: Cluster, n: nat, j: nat)
    requires Right(codec, c) && Enabled(c, Deliver(n)) && j < |c.committed|
    ensures var c' := Do(codec, c, Deliver(n)); NobodyWaits(c.(requests := c'.requests), n, c'.nodes[n], j)
  {
    var k := c.nodes[n].applied;
    assert EntryRight(codec, c, j) && EntryRight(codec, c, k) && NodeRight(codec, c, c.nodes[n]);
  }

  /* ---------- Restart ---------- */

  /** An interrupted node would be right again once it had applied the entry it was in. */
  lemma InterruptedIsRight(codec: Codec, c: Cluster, n: Node, left: Option<nat>, start: nat)
    requires NodeRight(codec, c, n) && WellFormed(c.origin) && start <= n.applied
    requires var m := Interrupted(codec, c, n, left).reached;
             forall k :: 0 <= k < m && k < |c.committed| ==> Repeatable(Log(codec, c.committed)[k].kind)
    ensures var n', log := Interrupted(codec, c, n, left), Log(codec, c.committed);
            n'.reached <= |log| && Run(n'.tree, log[..n'.reached][start..]) == Run(c.origin, log[..n'.reached])
  {
    var all, n' := Log(codec, c.committed), Interrupted(codec, c, n, left);
    var log := all[..n'.reached];
    assert Calm(codec, c, n.restarted, n.reached);
    if left.Some? && n.applied < |c.committed| {
      Through(codec, c, n, n'.reached);
      assert log[n.applied] == all[n.applied];
      CrashIsHarmless(c.origin, n.tree, log, start, n.applied, left.value);
    } else {
      assert log[n.applied..] == all[n.applied..n.reached];
      RestartIsHarmless(c.origin, n.tree, log, start, n.applied);
    }
  }

  /** Applying the entry a node is in front of, and the ones it applied before, leads to the clean tree. */
  lemma Through(codec: Codec, c: Cluster, n: Node, m: nat)
    requires n.applied <= n.reached <= |c.committed| && n.applied < |c.committed|
    requires CaughtUp(codec, c, n) == Run(c.origin, Log(codec, c.committed)[..n.reached])
    requires m == if n.reached <= n.applied then n.applied + 1 else n.reached
    ensures Run(n.tree, Log(codec, c.committed)[..m][n.applied..]) == Run(c.origin, Log(codec, c.committed)[..m])
  {
    var log := Log(codec, c.committed);
    if n.reached == n.applied {
      NothingToCatchUp(codec, c, n);
      RunOneMore(c.origin, n.tree, log, n.applied);
    } else {
      assert log[..m][n.applied..] == log[n.applied..n.reached];
    }
  }

  lemma RunOneMore(t: Tree<Bytes>, tree: Tree<Bytes>, log: seq<Command>, k: nat)
    requires k < |log| && tree == Run(t, log[..k])
    ensures Run(tree, log[..k + 1][k..]) == Run(t, log[..k + 1])
  {
    RunNext(t, log, k);
    assert log[..k + 1][k..] == [log[k]];
    RunOne(tree, log[k]);
  }

  lemma RestartedNodeIsRight(codec: Codec, c: Cluster, n: Node, left: Option<nat>, start: nat, n': Node)
    requires NodeRight(codec, c, n) && WellFormed(c.origin) && start <= n.applied
    requires n' == Interrupted(codec, c, n, left).(leads := false, restarted := true, applied := start)
    ensures NodeRight(codec, c, n')
  {
    if left.Some? && n.applied < |c.committed| {
      HalfKeepsWellFormed(n.tree, Meaning(codec, c.committed[n.applied].payload), left.value);
    }
    if Calm(codec, c, n'.restarted, n'.reached) {
      CalmBefore(codec, c, c, n.restarted, n'.restarted, n.reached, n'.reached);
      InterruptedIsRight(codec, c, n, left, start);
      var log := Log(codec, c.committed);
      assert log[..n'.reached][start..] == log[start..n'.reached];
    }
  }

  lemma OrphansKeepRight(codec: Codec, c: Cluster, n: nat, c': Cluster)
    requires Right(codec, c) && |c'.requests| == |c.requests| && c' == c.(requests := c'.requests)
    requires forall r :: 0 <= r < |c.requests| ==> c'.requests[r] == Orphaned(c.requests[r], n)
    ensures Right(codec, c')
    ensures forall k, node :: 0 <= k < |c'.committed| ==> NobodyWaits(c', n, node, k)
  {
    forall k | 0 <= k < |c'.committed| ensures EntryRight(codec, c', k) {
      assert EntryRight(codec, c, k);
    }
    forall m | 0 <= m < |c'.nodes| ensures NodeRight(codec, c', c'.nodes[m]) {
      NodeStaysRight(codec, c, c', c.nodes[m]);
    }
    forall q | 0 <= q < |c'.requests| ensures RequestRight(codec, c', q) {
      assert RequestRight(codec, c, q);
      if c'.requests[q] == c.requests[q] {
        RequestStaysRight(codec, c, c', q);
      }
    }
  }

  lemma RestartKeepsRight(codec: Codec, c: Cluster, n: nat, start: nat, left: Option<nat>)
    requires Right(codec, c) && Enabled(c, Restart(n, start, left))
    ensures Right(codec, Do(codec, c, Restart(n, start, left)))
  {
    var c' := Do(codec, c, Restart(n, start, left));
    var m := c.(requests := c'.requests);
    OrphansKeepRight(codec, c, n, m);
    assert NodeRight(codec, m, m.nodes[n]);
    RestartedNodeIsRight(codec, m, m.nodes[n], left, start, c'.nodes[n]);
    NodeStaysRight(codec, m, c', c'.nodes[n]);
    NodeKeepsRight(codec, m, n, c'.nodes[n]);
  }

  /* ---------- Every run ---------- */

  lemma StepKeepsRight(codec: Codec, c: Cluster, a: Action)
    requires Right(codec, c) && Enabled(c, a)
    ensures Right(codec, Do(codec, c, a))
  {
    match a
    case Dispatch(n, cmd) => DispatchKeepsRight(codec, c, n, cmd);
    case Commit(r) => CommitKeepsRight(codec, c, r);
    case Deliver(n) => DeliverKeepsRight(codec, c, n);
    case Abandon(r) => AbandonKeepsRight(codec, c, r);
    case Reply(r) => ReplyKeepsRight(codec, c, r);
    case Lead(n, leads) => LeadKeepsRight(codec, c, n, leads);
    case Restart(n, start, left) => RestartKeepsRight(codec, c, n, start, left);
  }

  lemma AbandonKeepsRight(codec: Codec, c: Cluster, r: nat)
    requires Right(codec, c) && Enabled(c, Abandon(r))
    ensures Right(codec, Do(codec, c, Abandon(r)))
  {
    assert RequestRight(codec, c, r);
    PhaseKeepsRight(codec, c, r, Proposed(Abandoned));
  }

  lemma ReplyKeepsRight(codec: Codec, c: Cluster, r: nat)
    requires Right(codec, c) && Enabled(c, Reply(r))
    ensures Right(codec, Do(codec, c, Reply(r)))
  {
    var c' := Do(codec, c, Reply(r));
    assert RequestRight(codec, c, r);
    ClosureStaysRight(codec, c, c', r, c.requests[r].phase.closure);
    PhaseKeepsRight(codec, c, r, c'.requests[r].phase);
  }

  lemma LeadKeepsRight(codec: Codec, c: Cluster, n: nat, leads: bool)
    requires Right(codec, c) && Enabled(c, Lead(n, leads))
    ensures Right(codec, Do(codec, c, Lead(n, leads)))
  {
    var c' := Do(codec, c, Lead(n, leads));
    assert NodeRight(codec, c, c.nodes[n]);
    NodeStaysRight(codec, c, c', c.nodes[n]);
    forall k | 0 <= k < |c.committed| ensures NobodyWaits(c, n, c'.nodes[n], k) {
      assert EntryRight(codec, c, k);
    }
    NodeKeepsRight(codec, c, n, c'.nodes[n]);
  }

  lemma {:induction false} RunsAreRight(codec: Codec, c0: Cluster, actions: seq<Action>)
    requires Initial(c0)
    ensures Execute(codec, c0, actions).Some? ==> Right(codec, Execute(codec, c0, actions).value)
  {
    if actions == [] {
      forall n | 0 <= n < |c0.nodes| ensures NodeRight(codec, c0, c0.nodes[n]) {
        assert InitialNode(c0, c0.nodes[n]);
        NothingToCatchUp(codec, c0, c0.nodes[n]);
      }
    } else {
      var before := actions[..|actions| - 1];
      RunsAreRight(codec, c0, before);
      if Execute(codec, c0, actions).Some? {
        StepKeepsRight(codec, Execute(codec, c0, before).value, actions[|actions| - 1]);
      }
    }
  }

  /* ---------- What a client may conclude ---------- */

  /** Position `k` of the log is request `r`, and nothing else is. */
  ghost predicate OnlyPosition(c: Cluster, r: nat, k: nat)
  {
    && k < |c.committed| && c.committed[k].request == r
    && forall j :: 0 <= j < |c.committed| && c.committed[j].request == r ==> j == k
  }

  /** The success that a request was answered with came from a node that had restarted by then. */
  predicate FromRestarted(q: Request)
  {
    q.phase.Answered? && q.phase.closure.Applied? && q.phase.closure.restarted
  }

  /** Entry `k` stands for the command.  It was applied with success, if the node that said so was calm
      when it applied the entry; and it is part of what every calm node that ever applied it holds, once
      the node has caught up after a restart. */
  ghost predicate Holds(codec: Codec, c: Cluster, q: Request, k: nat)
    requires k < |c.committed|
  {
    && Log(codec, c.committed)[k] == q.command
    && (Calm(codec, c, FromRestarted(q), k) ==> StatusAt(codec, c, k) == Fine)
    && forall n :: 0 <= n < |c.nodes| && c.nodes[n].reached > k && CalmNode(codec, c, c.nodes[n]) ==>
         Reflects(codec, c, c.nodes[n], k)
  }

  /** The node has not restarted, or the entries it has applied may be replayed. */
  ghost predicate CalmNode(codec: Codec, c: Cluster, n: Node)
  {
    Calm(codec, c, n.restarted, n.reached)
  }

  ghost predicate Reflects(codec: Codec, c: Cluster, n: Node, k: nat)
    requires k < |c.committed|
  {
    var log := Log(codec, c.committed);
    && k < n.reached <= |log|
    && CaughtUp(codec, c, n) == Run(Exec(Run(c.origin, log[..k]), log[k]).tree, log[k + 1..n.reached])
  }

  /** Acknowledgement soundness: a write answered with success is one of the seven mutating commands and
      stands at exactly one committed position.  It was applied there with an ok result, and it is part of
      the tree of every node that has applied past that position; for nodes that have restarted these two
      take entries that may be replayed; a restart after the answer takes nothing away from its status. */
  lemma AcknowledgedWritesHold(codec: Codec, c0: Cluster, actions: seq<Action>, r: nat) returns (k: nat)
    requires Lossless(codec) && Initial(c0) && Execute(codec, c0, actions).Some?
    requires r < |Execute(codec, c0, actions).value.requests|
    requires var phase := Execute(codec, c0, actions).value.requests[r].phase; phase.Answered? && phase.success
    ensures var c := Execute(codec, c0, actions).value;
            var q := c.requests[r];
            Mutating(q.command.kind) && OnlyPosition(c, r, k) && Holds(codec, c, q, k)
  {
    RunsAreRight(codec, c0, actions);
    var c := Execute(codec, c0, actions).value;
    assert RequestRight(codec, c, r);
    k := c.requests[r].phase.closure.at;
    assert EntryRight(codec, c, k);
    forall n | 0 <= n < |c.nodes| && c.nodes[n].reached > k && CalmNode(codec, c, c.nodes[n])
      ensures Reflects(codec, c, c.nodes[n], k)
    {
      NodeReflects(codec, c, n, k);
    }
  }

  lemma NodeReflects(codec: Codec, c: Cluster, n: nat, k: nat)
    requires Right(codec, c) && n < |c.nodes| && k < c.nodes[n].reached && k < |c.committed|
    requires CalmNode(codec, c, c.nodes[n])
    ensures Reflects(codec, c, c.nodes[n], k)
  {
    assert NodeRight(codec, c, c.nodes[n]);
    var log, m := Log(codec, c.committed), c.nodes[n].reached;
    assert log[..m] == log[..k] + log[k..m];
    RunAppend(c.origin, log[..k], log[k..m]);
    assert log[k..m][0] == log[k] && log[k..m][1..] == log[k + 1..m];
    RunFirst(Run(c.origin, log[..k]), log[k..m]);
  }
}
