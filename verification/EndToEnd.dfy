/**
  From the client's call to the committed log: the session protocol and the cluster side by side.  The
  server takes a mutating request from a connection by dispatching it to the cluster, and answers it with
  what became of it there.  A call therefore stands at no more than one committed position, whatever it
  returned, and at exactly one if it returned success.

  The session is that of one client; requests of all others are dispatched inside the cluster.
 */
module EndToEnd {
  import opened Basics
  import opened Commands
  import opened Replica
  import opened Framing
  import S = Session
  import C = Cluster

  /** Frame `index` that the server took from connection `conn` was dispatched as cluster request `request`. */
  datatype Served = Served(conn: nat, index: nat, request: nat)

  datatype Joint = Joint(session: S.State, cluster: C.Cluster, served: seq<Served>)

  /** `Take` and `Answer` are the two ends of `dispatch_command`; other commands are only answered. */
  datatype Step =
    | Net(a: S.Action)
    | Inside(b: C.Action)
    | Take(conn: nat, node: nat)
    | Answer(conn: nat, response: S.Response)

  predicate IsMutating(cmd: Option<Command>)
  {
    cmd.Some? && Mutating(cmd.value.kind)
  }

  /** The entry is of the frame that the connection's server is working on. */
  predicate InWork(s: S.State, e: Served)
  {
    e.conn < |s.conns| && e.index == |s.conns[e.conn].handled|
  }

  /** The server has dispatched the frame it is working on. */
  predicate Working(j: Joint, conn: nat)
  {
    exists x :: 0 <= x < |j.served| && j.served[x].conn == conn && InWork(j.session, j.served[x])
  }

  /** What `apply_write_command` returns for a request. */
  predicate Returns(phase: C.Phase, success: bool)
  {
    match phase
    case Answered(_, answer) => success == answer
    case Refused => !success
    case _ => false
  }

  /** What `dispatch_command` may return for the command that the server has decoded. */
  predicate MayAnswer(j: Joint, conn: nat, cmd: Option<Command>, success: bool)
  {
    if cmd.None? || cmd.value.kind.Unknown? then !success
    else if !Mutating(cmd.value.kind) then true
    else
      exists x :: 0 <= x < |j.served| && j.served[x].conn == conn && InWork(j.session, j.served[x])
                  && j.served[x].request < |j.cluster.requests|
                  && Returns(j.cluster.requests[j.served[x].request].phase, success)
  }

  /** The command that the server decodes from the next request of a connection. */
  function NextCommand(wire: S.Wire, s: S.State, conn: nat): Option<Command>
  {
    if conn < |s.conns| && S.NextUp(s.conns[conn]).Message? then wire.unpackCommand(S.NextUp(s.conns[conn]).m) else None
  }

  predicate Enabled(wire: S.Wire, j: Joint, a: Step)
  {
    match a
    case Net(b) => !b.ServerTakes? && S.Enabled(wire, j.session, b)
    case Inside(b) => C.Enabled(j.cluster, b)
    case Take(conn, node) =>
      && conn < |j.session.conns| && j.session.conns[conn].serving && !j.session.conns[conn].replying
      && IsMutating(NextCommand(wire, j.session, conn)) && !Working(j, conn) && node < |j.cluster.nodes|
    case Answer(conn, response) =>
      && S.Enabled(wire, j.session, S.ServerTakes(conn, response))
      && MayAnswer(j, conn, NextCommand(wire, j.session, conn), response.success)
  }

  /** The step of the cluster that taking a request is. */
  function Dispatched(wire: S.Wire, j: Joint, conn: nat, node: nat): C.Action
    requires Enabled(wire, j, Take(conn, node))
  {
    C.Dispatch(node, NextCommand(wire, j.session, conn).value)
  }

  function Do(wire: S.Wire, codec: Codec, j: Joint, a: Step): Joint
    requires Enabled(wire, j, a)
  {
    match a
    case Net(b) => j.(session := S.Do(wire, j.session, b))
    case Inside(b) => j.(cluster := C.Do(codec, j.cluster, b))
    case Take(conn, node) =>
      j.(cluster := C.Do(codec, j.cluster, Dispatched(wire, j, conn, node)),
         served := j.served + [Served(conn, |j.session.conns[conn].handled|, |j.cluster.requests|)])
    case Answer(conn, response) => j.(session := S.Do(wire, j.session, S.ServerTakes(conn, response)))
  }

  function Execute(wire: S.Wire, codec: Codec, j: Joint, steps: seq<Step>): Option<Joint>
  {
    if steps == [] then Some(j)
    else
      match Execute(wire, codec, j, steps[..|steps| - 1])
      case None => None
      case Some(m) =>
        if Enabled(wire, m, steps[|steps| - 1]) then Some(Do(wire, codec, m, steps[|steps| - 1])) else None
  }

  ghost predicate Initial(j: Joint)
  {
    j.session == S.START && C.Initial(j.cluster) && j.served == []
  }

  /* ---------- Both sides are runs of their own ---------- */

  /** The steps of the session that a joint step contains. */
  function NetOf(a: Step): seq<S.Action>
  {
    match a
    case Net(b) => [b]
    case Answer(conn, response) => [S.ServerTakes(conn, response)]
    case _ => []
  }

  function NetPart(steps: seq<Step>): seq<S.Action>
  {
    if steps == [] then [] else NetPart(steps[..|steps| - 1]) + NetOf(steps[|steps| - 1])
  }

  /** The commands that clients send. */
  ghost predicate ClearLengths(wire: S.Wire, steps: seq<Step>)
  {
    forall k :: 0 <= k < |steps| && steps[k].Net? ==> S.ClearLength(wire, steps[k].a)
  }

  lemma NetSnoc(wire: S.Wire, xs: seq<S.Action>, s: S.State, a: Step, s': S.State)
    requires S.Execute(wire, S.START, xs) == Some(s)
    requires NetOf(a) == [] ==> s' == s
    requires NetOf(a) != [] ==> S.Enabled(wire, s, NetOf(a)[0]) && S.Do(wire, s, NetOf(a)[0]) == s'
    ensures S.Execute(wire, S.START, xs + NetOf(a)) == Some(s')
  {
    var ys := xs + NetOf(a);
    if NetOf(a) == [] {
      assert ys == xs;
    } else {
      assert ys[..|ys| - 1] == xs && ys[|ys| - 1] == NetOf(a)[0];
    }
  }

  lemma {:induction false} NetPartRuns(wire: S.Wire, codec: Codec, j0: Joint, steps: seq<Step>)
    requires Initial(j0) && Execute(wire, codec, j0, steps).Some?
    ensures S.Execute(wire, S.START, NetPart(steps)) == Some(Execute(wire, codec, j0, steps).value.session)
  {
    if steps != [] {
      var before, a := steps[..|steps| - 1], steps[|steps| - 1];
      NetPartRuns(wire, codec, j0, before);
      var j := Execute(wire, codec, j0, before).value;
      NetSnoc(wire, NetPart(before), j.session, a, Do(wire, codec, j, a).session);
    }
  }

  lemma {:induction false} NetPartIsClear(wire: S.Wire, steps: seq<Step>)
    requires ClearLengths(wire, steps)
    ensures forall k :: 0 <= k < |NetPart(steps)| ==> S.ClearLength(wire, NetPart(steps)[k])
  {
    if steps != [] {
      NetPartIsClear(wire, steps[..|steps| - 1]);
      assert steps[|steps| - 1].Net? ==> S.ClearLength(wire, steps[|steps| - 1].a);
    }
  }

  /** The steps of the cluster that an enabled joint step contains. */
  function InsideOf(wire: S.Wire, j: Joint, a: Step): seq<C.Action>
    requires Enabled(wire, j, a)
  {
    match a
    case Inside(b) => [b]
    case Take(conn, node) => [Dispatched(wire, j, conn, node)]
    case _ => []
  }

  lemma InsideSnoc(wire: S.Wire, codec: Codec, c0: C.Cluster, xs: seq<C.Action>, j: Joint, a: Step)
    requires C.Execute(codec, c0, xs) == Some(j.cluster) && Enabled(wire, j, a)
    ensures C.Execute(codec, c0, xs + InsideOf(wire, j, a)) == Some(Do(wire, codec, j, a).cluster)
  {
    var own := InsideOf(wire, j, a);
    var ys := xs + own;
    if own == [] {
      assert ys == xs;
    } else {
      assert ys[..|ys| - 1] == xs && ys[|ys| - 1] == own[0];
    }
  }

  /** The cluster's steps in a joint run are a run of the cluster. */
  lemma {:induction false} InsidePartRuns(wire: S.Wire, codec: Codec, j0: Joint, steps: seq<Step>)
      returns (actions: seq<C.Action>)
    requires Initial(j0) && Execute(wire, codec, j0, steps).Some?
    ensures C.Execute(codec, j0.cluster, actions) == Some(Execute(wire, codec, j0, steps).value.cluster)
  {
    actions := [];
    if steps != [] {
      var before, a := steps[..|steps| - 1], steps[|steps| - 1];
      actions := InsidePartRuns(wire, codec, j0, before);
      var j := Execute(wire, codec, j0, before).value;
      InsideSnoc(wire, codec, j0.cluster, actions, j, a);
      actions := actions + InsideOf(wire, j, a);
    }
  }

  /* ---------- The frame in work stays the same ---------- */

  /** More bytes behind a message leave it the message that is read. */
  lemma ParseExtends(s: Bytes, t: Bytes)
    requires Parse(s).Message?
    ensures Parse(s + t).Message? && Parse(s + t).m == Parse(s).m
  {
    var n := HeaderValue(s[..4]);
    assert (s + t)[..4] == s[..4] && (s + t)[4..4 + n] == s[4..4 + n];
  }

  /** So does more on the connection it came from. */
  lemma NextUpExtends(c: S.Conn, c': S.Conn)
    requires S.NextUp(c).Message? && S.Up(c) <= S.Up(c') && c'.upRead == c.upRead
    ensures S.NextUp(c').Message? && S.NextUp(c').m == S.NextUp(c).m
  {
    var n := c.upRead;
    var t := S.Up(c')[|S.Up(c)|..];
    assert S.Up(c')[n..] == S.Up(c)[n..] + t;
    ParseExtends(S.Up(c)[n..], t);
  }

  /** Nothing was cut short on the connection in use. */
  ghost predicate CurrentIsWhole(s: S.State)
  {
    s.current.Some? ==> s.current.value < |s.conns| && s.conns[s.current.value].tornUp == []
  }

  lemma CurrentStaysWhole(wire: S.Wire, s: S.State, a: S.Action)
    requires CurrentIsWhole(s) && S.Enabled(wire, s, a)
    ensures CurrentIsWhole(S.Do(wire, s, a))
  {
  }

  lemma SentExtends(c: S.Conn, c': S.Conn, m: Bytes)
    requires c.tornUp == [] && c'.tornUp == [] && c'.sent == c.sent + [m]
    ensures S.Up(c) <= S.Up(c')
  {
    FramesSnoc(c.sent, m);
    assert S.Up(c') == S.Up(c) + Frame(m);
  }

  lemma TornExtends(c: S.Conn, c': S.Conn)
    requires c.tornUp == [] && c'.sent == c.sent
    ensures S.Up(c) <= S.Up(c')
  {
    assert S.Up(c') == S.Up(c) + c'.tornUp;
  }

  /** Session steps other than taking a request leave alone what the server has handled, and the frame it
      reads next. */
  lemma NetLeavesServer(wire: S.Wire, s: S.State, a: S.Action, k: nat)
    requires CurrentIsWhole(s) && S.Enabled(wire, s, a) && !a.ServerTakes? && k < |s.conns|
    ensures var s' := S.Do(wire, s, a);
            && k < |s'.conns| && s'.conns[k].handled == s.conns[k].handled
            && (s'.conns[k].replying ==> s.conns[k].replying)
            && (S.NextUp(s.conns[k]).Message? ==>
                  S.NextUp(s'.conns[k]).Message? && NextCommand(wire, s', k) == NextCommand(wire, s, k))
  {
    var s' := S.Do(wire, s, a);
    var c, c' := s.conns[k], s'.conns[k];
    assert c'.upRead == c.upRead;
    if a.Send? && k == s.current.value {
      SentExtends(c, c', S.Request(wire, s));
    } else if a.SendFails? && k == s.current.value {
      TornExtends(c, c');
    } else {
      assert S.Up(c') == S.Up(c);
    }
    if S.NextUp(c).Message? {
      NextUpExtends(c, c');
    }
  }

  /* ---------- What links them ---------- */

  /** A request that was dispatched carries the command decoded from its frame: the one that was handled, or
      the one that is still in work.  It was handled with success only if the cluster answered so. */
  ghost predicate EntryLinked(wire: S.Wire, j: Joint, e: Served)
  {
    && e.conn < |j.session.conns| && e.request < |j.cluster.requests|
    && var c, q := j.session.conns[e.conn], j.cluster.requests[e.request];
       && Mutating(q.command.kind) && e.index <= |c.handled|
       && (if e.index < |c.handled|
           then c.handled[e.index].command == Some(q.command) && Returns(q.phase, c.handled[e.index].response.success)
           else !c.replying && NextCommand(wire, j.session, e.conn) == Some(q.command))
  }

  /** What the server handled, if it changes something, was dispatched. */
  ghost predicate HandledLinked(j: Joint, conn: nat, index: nat)
    requires conn < |j.session.conns| && index < |j.session.conns[conn].handled|
  {
    IsMutating(j.session.conns[conn].handled[index].command) ==> HasEntry(j, conn, index)
  }

  predicate HasEntry(j: Joint, conn: nat, index: nat)
  {
    exists x :: 0 <= x < |j.served| && j.served[x].conn == conn && j.served[x].index == index
  }

  /** No two entries share a request or a frame. */
  ghost predicate ServedApart(served: seq<Served>)
  {
    forall x, y :: 0 <= x < y < |served| ==>
      && served[x].request != served[y].request
      && (served[x].conn != served[y].conn || served[x].index != served[y].index)
  }

  ghost predicate Joined(wire: S.Wire, j: Joint)
  {
    && CurrentIsWhole(j.session) && ServedApart(j.served)
    && (forall x :: 0 <= x < |j.served| ==> EntryLinked(wire, j, j.served[x]))
    && (forall conn, index :: 0 <= conn < |j.session.conns| && 0 <= index < |j.session.conns[conn].handled| ==>
          HandledLinked(j, conn, index))
  }

  lemma NetKeepsJoined(wire: S.Wire, codec: Codec, j: Joint, a: Step)
    requires Joined(wire, j) && Enabled(wire, j, a) && a.Net?
    ensures Joined(wire, Do(wire, codec, j, a))
  {
    var j' := Do(wire, codec, j, a);
    CurrentStaysWhole(wire, j.session, a.a);
    forall x | 0 <= x < |j'.served| ensures EntryLinked(wire, j', j'.served[x]) {
      assert EntryLinked(wire, j, j.served[x]);
      NetLeavesServer(wire, j.session, a.a, j.served[x].conn);
    }
    forall conn, index | 0 <= conn < |j'.session.conns| && 0 <= index < |j'.session.conns[conn].handled|
      ensures HandledLinked(j', conn, index)
    {
      if conn < |j.session.conns| {
        NetLeavesServer(wire, j.session, a.a, conn);
        assert HandledLinked(j, conn, index);
      }
    }
  }

  /** Cluster steps keep the requests, and what was answered or refused. */
  lemma ReturnsStays(codec: Codec, c: C.Cluster, a: C.Action, r: nat)
    requires C.Enabled(c, a) && r < |c.requests|
    ensures var c' := C.Do(codec, c, a);
            && r < |c'.requests| && c'.requests[r].command == c.requests[r].command
            && (forall success :: Returns(c.requests[r].phase, success) ==> Returns(c'.requests[r].phase, success))
  {
  }

  lemma ClusterKeepsEntries(wire: S.Wire, codec: Codec, j: Joint, a: C.Action, j': Joint)
    requires Joined(wire, j) && C.Enabled(j.cluster, a)
    requires j'.session == j.session && j'.cluster == C.Do(codec, j.cluster, a)
    ensures forall x :: 0 <= x < |j.served| ==> EntryLinked(wire, j', j.served[x])
  {
    forall x | 0 <= x < |j.served| ensures EntryLinked(wire, j', j.served[x]) {
      assert EntryLinked(wire, j, j.served[x]);
      ReturnsStays(codec, j.cluster, a, j.served[x].request);
    }
  }

  lemma EntriesStay(j: Joint, j': Joint, conn: nat, index: nat)
    requires conn < |j.session.conns| && index < |j.session.conns[conn].handled| && HandledLinked(j, conn, index)
    requires conn < |j'.session.conns| && index < |j'.session.conns[conn].handled|
    requires j'.session.conns[conn].handled[index] == j.session.conns[conn].handled[index] && j.served <= j'.served
    ensures HandledLinked(j', conn, index)
  {
    if HasEntry(j, conn, index) {
      var x :| 0 <= x < |j.served| && j.served[x].conn == conn && j.served[x].index == index;
      assert j'.served[x] == j.served[x];
    }
  }

  lemma InsideKeepsJoined(wire: S.Wire, codec: Codec, j: Joint, a: Step)
    requires Joined(wire, j) && Enabled(wire, j, a) && a.Inside?
    ensures Joined(wire, Do(wire, codec, j, a))
  {
    var j' := Do(wire, codec, j, a);
    ClusterKeepsEntries(wire, codec, j, a.b, j');
    forall conn, index | 0 <= conn < |j'.session.conns| && 0 <= index < |j'.session.conns[conn].handled|
      ensures HandledLinked(j', conn, index)
    {
      EntriesStay(j, j', conn, index);
    }
  }

  lemma TakeKeepsJoined(wire: S.Wire, codec: Codec, j: Joint, a: Step)
    requires Joined(wire, j) && Enabled(wire, j, a) && a.Take?
    ensures Joined(wire, Do(wire, codec, j, a))
  {
    var j' := Do(wire, codec, j, a);
    ClusterKeepsEntries(wire, codec, j, Dispatched(wire, j, a.conn, a.node), j');
    var e := j'.served[|j.served|];
    assert EntryLinked(wire, j', e);
    forall x | 0 <= x < |j.served|
      ensures j.served[x].request != e.request && (j.served[x].conn != e.conn || j.served[x].index != e.index)
    {
      assert EntryLinked(wire, j, j.served[x]);
    }
    forall conn, index | 0 <= conn < |j'.session.conns| && 0 <= index < |j'.session.conns[conn].handled|
      ensures HandledLinked(j', conn, index)
    {
      EntriesStay(j, j', conn, index);
    }
  }

  /** Answering appends one entry to what the connection has handled. */
  lemma AnsweringAppends(wire: S.Wire, s: S.State, conn: nat, response: S.Response)
    requires S.Enabled(wire, s, S.ServerTakes(conn, response))
    ensures var s', c := S.Do(wire, s, S.ServerTakes(conn, response)), s.conns[conn];
            && |s'.conns| == |s.conns|
            && s'.conns[conn].handled == c.handled + [S.Handled(NextCommand(wire, s, conn), response)]
            && (forall k :: 0 <= k < |s.conns| && k != conn ==> s'.conns[k] == s.conns[k])
  {
  }

  /** The frame in work becomes the last one handled. */
  lemma AnswerKeepsEntry(wire: S.Wire, codec: Codec, j: Joint, a: Step, x: nat)
    requires Joined(wire, j) && Enabled(wire, j, a) && a.Answer? && x < |j.served|
    ensures EntryLinked(wire, Do(wire, codec, j, a), j.served[x])
  {
    var e := j.served[x];
    AnsweringAppends(wire, j.session, a.conn, a.response);
    assert EntryLinked(wire, j, e);
    if e.conn == a.conn && InWork(j.session, e) {
      var y :| 0 <= y < |j.served| && j.served[y].conn == a.conn && InWork(j.session, j.served[y])
               && j.served[y].request < |j.cluster.requests|
               && Returns(j.cluster.requests[j.served[y].request].phase, a.response.success);
      assert x == y;
    }
  }

  lemma AnswerKeepsJoined(wire: S.Wire, codec: Codec, j: Joint, a: Step)
    requires Joined(wire, j) && Enabled(wire, j, a) && a.Answer?
    ensures Joined(wire, Do(wire, codec, j, a))
  {
    var j' := Do(wire, codec, j, a);
    CurrentStaysWhole(wire, j.session, S.ServerTakes(a.conn, a.response));
    forall x | 0 <= x < |j'.served| ensures EntryLinked(wire, j', j'.served[x]) {
      AnswerKeepsEntry(wire, codec, j, a, x);
    }
    AnsweringAppends(wire, j.session, a.conn, a.response);
    forall conn, index | 0 <= conn < |j'.session.conns| && 0 <= index < |j'.session.conns[conn].handled|
      ensures HandledLinked(j', conn, index)
    {
      if index < |j.session.conns[conn].handled| {
        EntriesStay(j, j', conn, index);
      }
    }
  }

  lemma {:induction false} RunsAreJoined(wire: S.Wire, codec: Codec, j0: Joint, steps: seq<Step>)
    requires Initial(j0) && Execute(wire, codec, j0, steps).Some?
    ensures Joined(wire, Execute(wire, codec, j0, steps).value)
  {
    if steps != [] {
      var before, a := steps[..|steps| - 1], steps[|steps| - 1];
      RunsAreJoined(wire, codec, j0, before);
      var j := Execute(wire, codec, j0, before).value;
      match a
      case Net(_) => NetKeepsJoined(wire, codec, j, a);
      case Inside(_) => InsideKeepsJoined(wire, codec, j, a);
      case Take(_, _) => TakeKeepsJoined(wire, codec, j, a);
      case Answer(_, _) => AnswerKeepsJoined(wire, codec, j, a);
    }
  }

  /* ---------- The client's view ---------- */

  /** Call `i`, of a command that changes something, returned a response of the server. */
  predicate Replied(s: S.State, i: nat)
  {
    i < |s.calls| && s.calls[i].outcome.FromServer? && Mutating(s.calls[i].command.kind)
  }

  /** And the response was success. */
  predicate Succeeded(s: S.State, i: nat)
  {
    Replied(s, i) && s.calls[i].outcome.response.success
  }

  predicate AnsweredWell(phase: C.Phase)
  {
    phase.Answered? && phase.success
  }

  /** Request `r` was dispatched for call `i`, whatever became of either since. */
  ghost predicate DispatchedFor(j: Joint, i: nat, r: nat)
  {
    exists x :: 0 <= x < |j.served| && j.served[x].request == r && ServesCall(j, x, i)
  }

  ghost predicate ServesCall(j: Joint, x: nat, i: nat)
    requires x < |j.served|
  {
    var e := j.served[x];
    && e.conn < |j.session.conns| && e.index < |j.session.conns[e.conn].asked|
    && j.session.conns[e.conn].asked[e.index] == i
  }

  /** A request that the server dispatched from a connection is of a call, and carries its command: also
      while it is in work, and after the connection was lost. */
  lemma RequestsAreOfCalls(wire: S.Wire, codec: Codec, j0: Joint, steps: seq<Step>, x: nat) returns (i: nat)
    requires S.Lossless(wire) && ClearLengths(wire, steps) && Initial(j0) && Execute(wire, codec, j0, steps).Some?
    requires x < |Execute(wire, codec, j0, steps).value.served|
    ensures var j := Execute(wire, codec, j0, steps).value;
            && ServesCall(j, x, i) && i < |j.session.calls| && j.served[x].request < |j.cluster.requests|
            && j.cluster.requests[j.served[x].request].command == j.session.calls[i].command
  {
    var j := Execute(wire, codec, j0, steps).value;
    NetPartRuns(wire, codec, j0, steps);
    NetPartIsClear(wire, steps);
    RunsAreJoined(wire, codec, j0, steps);
    S.RunsStayRight(wire, NetPart(steps));
    i := EntryIsOfCall(wire, j, x);
  }

  lemma EntryIsOfCall(wire: S.Wire, j: Joint, x: nat) returns (i: nat)
    requires S.Lossless(wire) && S.Right(wire, j.session) && x < |j.served| && EntryLinked(wire, j, j.served[x])
    ensures ServesCall(j, x, i) && i < |j.session.calls|
    ensures j.cluster.requests[j.served[x].request].command == j.session.calls[i].command
  {
    var e := j.served[x];
    var c := j.session.conns[e.conn];
    assert S.ServerRight(wire, j.session.calls, c);
    if e.index < |c.handled| {
      assert S.HandledRight(j.session.calls, c, e.index);
    } else {
      S.NextUpIsNextRequest(wire, j.session.calls, c);
      assert S.RequestRight(wire, j.session.calls, c, e.index);
    }
    i := c.asked[e.index];
  }

  /** A mutating call that the server answered was dispatched, and the answer is success if and only if the
      cluster answered the request with success. */
  lemma ResponsesAreHonest(wire: S.Wire, codec: Codec, j0: Joint, steps: seq<Step>, i: nat) returns (r: nat)
    requires S.Lossless(wire) && ClearLengths(wire, steps) && Initial(j0) && Execute(wire, codec, j0, steps).Some?
    requires Replied(Execute(wire, codec, j0, steps).value.session, i)
    ensures var j := Execute(wire, codec, j0, steps).value;
            && DispatchedFor(j, i, r) && r < |j.cluster.requests|
            && j.cluster.requests[r].command == j.session.calls[i].command
            && (j.session.calls[i].outcome.response.success <==> AnsweredWell(j.cluster.requests[r].phase))
  {
    var j := Execute(wire, codec, j0, steps).value;
    NetPartRuns(wire, codec, j0, steps);
    NetPartIsClear(wire, steps);
    RunsAreJoined(wire, codec, j0, steps);
    S.RunsStayRight(wire, NetPart(steps));
    r := ReplyWasDispatched(wire, j, i);
  }

  lemma ReplyWasDispatched(wire: S.Wire, j: Joint, i: nat) returns (r: nat)
    requires Joined(wire, j) && S.CallsRight(j.session) && Replied(j.session, i)
    ensures DispatchedFor(j, i, r) && r < |j.cluster.requests|
    ensures j.cluster.requests[r].command == j.session.calls[i].command
    ensures j.session.calls[i].outcome.response.success <==> AnsweredWell(j.cluster.requests[r].phase)
  {
    var response := j.session.calls[i].outcome.response;
    assert S.Answers(j.session, i, response);
    var conn: nat, index: nat :| S.AnswersAt(j.session, i, response, conn, index);
    assert HandledLinked(j, conn, index);
    var x :| 0 <= x < |j.served| && j.served[x].conn == conn && j.served[x].index == index;
    assert EntryLinked(wire, j, j.served[x]);
    r := j.served[x].request;
    assert ServesCall(j, x, i);
  }

  /** A call has at most one request in the cluster, counted from the moment it is dispatched. */
  lemma OneRequest(wire: S.Wire, codec: Codec, j0: Joint, steps: seq<Step>, i: nat, r: nat, r': nat)
    requires Initial(j0) && Execute(wire, codec, j0, steps).Some?
    requires var j := Execute(wire, codec, j0, steps).value; DispatchedFor(j, i, r) && DispatchedFor(j, i, r')
    ensures r == r'
  {
    NetPartRuns(wire, codec, j0, steps);
    RunsAreJoined(wire, codec, j0, steps);
    S.RunsAskOnce(wire, NetPart(steps));
    SameCallSameRequest(Execute(wire, codec, j0, steps).value, i, r, r');
  }

  lemma SameCallSameRequest(j: Joint, i: nat, r: nat, r': nat)
    requires ServedApart(j.served) && S.AskedOnce(j.session) && DispatchedFor(j, i, r) && DispatchedFor(j, i, r')
    ensures r == r'
  {
    var x :| 0 <= x < |j.served| && j.served[x].request == r && ServesCall(j, x, i);
    var y :| 0 <= y < |j.served| && j.served[y].request == r' && ServesCall(j, y, i);
    assert j.served[x].conn == j.served[y].conn && j.served[x].index == j.served[y].index;
  }

  /** Entry `k` of the committed log was proposed for call `i`. */
  ghost predicate StandsAt(j: Joint, i: nat, k: nat)
  {
    k < |j.cluster.committed| && DispatchedFor(j, i, j.cluster.committed[k].request)
  }

  /** Whatever a call returned, an error, a success or nothing yet, it stands at no more than one committed
      position. */
  lemma OnePosition(wire: S.Wire, codec: Codec, j0: Joint, steps: seq<Step>, i: nat, k: nat, k': nat)
    requires Initial(j0) && Execute(wire, codec, j0, steps).Some?
    requires var j := Execute(wire, codec, j0, steps).value; StandsAt(j, i, k) && StandsAt(j, i, k')
    ensures k == k'
  {
    var j := Execute(wire, codec, j0, steps).value;
    OneRequest(wire, codec, j0, steps, i, j.cluster.committed[k].request, j.cluster.committed[k'].request);
    var actions := InsidePartRuns(wire, codec, j0, steps);
    C.RunsAreRight(codec, j0.cluster, actions);
    assert C.EntryRight(codec, j.cluster, k);
  }

  /** And the entry there is the call's own command. */
  lemma PositionIsTheCall(wire: S.Wire, codec: Codec, j0: Joint, steps: seq<Step>, i: nat, k: nat)
    requires S.Lossless(wire) && Lossless(codec) && ClearLengths(wire, steps)
    requires Initial(j0) && Execute(wire, codec, j0, steps).Some?
    requires StandsAt(Execute(wire, codec, j0, steps).value, i, k)
    ensures var j := Execute(wire, codec, j0, steps).value;
            i < |j.session.calls| && C.Log(codec, j.cluster.committed)[k] == j.session.calls[i].command
  {
    var j := Execute(wire, codec, j0, steps).value;
    var r := j.cluster.committed[k].request;
    var x :| 0 <= x < |j.served| && j.served[x].request == r && ServesCall(j, x, i);
    var i' := RequestsAreOfCalls(wire, codec, j0, steps, x);
    var actions := InsidePartRuns(wire, codec, j0, steps);
    C.RunsAreRight(codec, j0.cluster, actions);
    assert C.EntryRight(codec, j.cluster, k) && C.RequestRight(codec, j.cluster, r);
  }

  /** End to end: a call that returned success for a mutating command has one request in the cluster, which
      carries that command; the request stands at exactly one committed position, was applied there with an
      ok result, and is reflected by every node past it; the last two, where a node had restarted, if the
      entries it had applied may be replayed. */
  lemma SuccessfulCallsHold(wire: S.Wire, codec: Codec, j0: Joint, steps: seq<Step>, i: nat) returns (r: nat, k: nat)
    requires S.Lossless(wire) && Lossless(codec) && ClearLengths(wire, steps)
    requires Initial(j0) && Execute(wire, codec, j0, steps).Some?
    requires Succeeded(Execute(wire, codec, j0, steps).value.session, i)
    ensures var j := Execute(wire, codec, j0, steps).value;
            && DispatchedFor(j, i, r) && (forall r' :: DispatchedFor(j, i, r') ==> r' == r)
            && r < |j.cluster.requests| && j.cluster.requests[r].command == j.session.calls[i].command
            && C.OnlyPosition(j.cluster, r, k) && C.Holds(codec, j.cluster, j.cluster.requests[r], k)
  {
    r := ResponsesAreHonest(wire, codec, j0, steps, i);
    var actions := InsidePartRuns(wire, codec, j0, steps);
    k := C.AcknowledgedWritesHold(codec, j0.cluster, actions, r);
    var j := Execute(wire, codec, j0, steps).value;
    forall r' | DispatchedFor(j, i, r') ensures r' == r {
      OneRequest(wire, codec, j0, steps, i, r', r);
    }
  }

  /** No two calls share a request, and so no two calls share a position. */
  lemma CallsStandApart(wire: S.Wire, codec: Codec, j0: Joint, steps: seq<Step>, i: nat, i': nat, r: nat)
    requires Initial(j0) && Execute(wire, codec, j0, steps).Some?
    requires var j := Execute(wire, codec, j0, steps).value; DispatchedFor(j, i, r) && DispatchedFor(j, i', r)
    ensures i == i'
  {
    RunsAreJoined(wire, codec, j0, steps);
    var j := Execute(wire, codec, j0, steps).value;
    var x :| 0 <= x < |j.served| && j.served[x].request == r && ServesCall(j, x, i);
    var y :| 0 <= y < |j.served| && j.served[y].request == r && ServesCall(j, y, i');
    assert x == y;
  }

  /* ---------- What no command has ---------- */

  /** A frame that does not decode, or decodes to a type that no command has. */
  predicate NoCommand(cmd: Option<Command>)
  {
    cmd.None? || cmd.value.kind.Unknown?
  }

  ghost predicate NoCommandFails(j: Joint)
  {
    forall conn, index :: 0 <= conn < |j.session.conns| && 0 <= index < |j.session.conns[conn].handled| ==>
      FailsIfNone(j.session.conns[conn].handled[index])
  }

  predicate FailsIfNone(h: S.Handled)
  {
    NoCommand(h.command) ==> !h.response.success
  }

  lemma {:induction false} RunsFailNoCommand(wire: S.Wire, codec: Codec, j0: Joint, steps: seq<Step>)
    requires Initial(j0) && Execute(wire, codec, j0, steps).Some?
    ensures NoCommandFails(Execute(wire, codec, j0, steps).value)
  {
    if steps != [] {
      var before, a := steps[..|steps| - 1], steps[|steps| - 1];
      RunsFailNoCommand(wire, codec, j0, before);
      RunsAreJoined(wire, codec, j0, before);
      StepFailsNoCommand(wire, codec, Execute(wire, codec, j0, before).value, a);
    }
  }

  lemma StepFailsNoCommand(wire: S.Wire, codec: Codec, j: Joint, a: Step)
    requires CurrentIsWhole(j.session) && Enabled(wire, j, a) && NoCommandFails(j)
    ensures NoCommandFails(Do(wire, codec, j, a))
  {
    var s, s' := j.session, Do(wire, codec, j, a).session;
    if a.Answer? {
      AnsweringAppends(wire, s, a.conn, a.response);
    }
    forall conn, index | 0 <= conn < |s'.conns| && 0 <= index < |s'.conns[conn].handled|
      ensures FailsIfNone(s'.conns[conn].handled[index])
    {
      if a.Net? && conn < |s.conns| {
        NetLeavesServer(wire, s, a.a, conn);
      }
      if conn < |s.conns| && index < |s.conns[conn].handled| {
        assert FailsIfNone(s.conns[conn].handled[index]);
      }
    }
  }

  /** A call of a type that no command has never returns success. */
  lemma UnknownCallsFail(wire: S.Wire, codec: Codec, j0: Joint, steps: seq<Step>, i: nat)
    requires S.Lossless(wire) && ClearLengths(wire, steps) && Initial(j0) && Execute(wire, codec, j0, steps).Some?
    requires var s := Execute(wire, codec, j0, steps).value.session;
             i < |s.calls| && s.calls[i].outcome.FromServer? && s.calls[i].command.kind.Unknown?
    ensures !Execute(wire, codec, j0, steps).value.session.calls[i].outcome.response.success
  {
    var s := Execute(wire, codec, j0, steps).value.session;
    NetPartRuns(wire, codec, j0, steps);
    NetPartIsClear(wire, steps);
    S.RunsStayRight(wire, NetPart(steps));
    RunsFailNoCommand(wire, codec, j0, steps);
    var response := s.calls[i].outcome.response;
    assert S.Answers(s, i, response);
    var conn: nat, index: nat :| S.AnswersAt(s, i, response, conn, index);
    assert FailsIfNone(s.conns[conn].handled[index]);
  }

  /* ---------- Reads ---------- */

  /** The response that `handle_read_file` makes of a result. */
  predicate Carries(result: Result<Bytes>, response: S.Response)
  {
    match result
    case Ok(b) => response.success && response.data == b
    case Err(_) => !response.success && response.data == []
  }

  /** The response is that of reading the tree after the first `m` committed entries. */
  predicate ShownAt(codec: Codec, c: C.Cluster, path: string, response: S.Response, m: nat)
  {
    m <= |c.committed| && Carries(ReadOf(Run(c.origin, C.Log(codec, c.committed[..m])), path), response)
  }

  ghost predicate Shown(codec: Codec, c: C.Cluster, path: string, response: S.Response)
  {
    exists m: nat :: ShownAt(codec, c, path, response, m)
  }

  predicate ReadsPath(cmd: Option<Command>, path: string)
  {
    cmd.Some? && cmd.value.kind.ReadFile? && cmd.value.path == path
  }

  /** Servers answer reads of the path with what some prefix of the committed log shows: what
      `NodeEngine.ReadsSeeAPrefix` proves of a path without a clash. */
  ghost predicate AnswersReads(wire: S.Wire, codec: Codec, j: Joint, a: Step, path: string)
  {
    a.Answer? && ReadsPath(NextCommand(wire, j.session, a.conn), path) ==> Shown(codec, j.cluster, path, a.response)
  }

  ghost predicate ReadsAnswered(wire: S.Wire, codec: Codec, j0: Joint, steps: seq<Step>, path: string)
  {
    forall k :: 0 <= k < |steps| && Execute(wire, codec, j0, steps[..k]).Some? ==>
      AnswersReads(wire, codec, Execute(wire, codec, j0, steps[..k]).value, steps[k], path)
  }

  /** Every read of the path that the server handled was answered so. */
  ghost predicate HandledReadsShown(codec: Codec, j: Joint, path: string)
  {
    forall conn, index :: 0 <= conn < |j.session.conns| && 0 <= index < |j.session.conns[conn].handled| ==>
      HandledShown(codec, j.cluster, j.session.conns[conn].handled[index], path)
  }

  ghost predicate HandledShown(codec: Codec, c: C.Cluster, h: S.Handled, path: string)
  {
    ReadsPath(h.command, path) ==> Shown(codec, c, path, h.response)
  }

  lemma ShownStays(codec: Codec, c: C.Cluster, c': C.Cluster, path: string, response: S.Response)
    requires Shown(codec, c, path, response) && c'.origin == c.origin && c.committed <= c'.committed
    ensures Shown(codec, c', path, response)
  {
    var m: nat :| ShownAt(codec, c, path, response, m);
    assert c'.committed[..m] == c.committed[..m];
    assert ShownAt(codec, c', path, response, m);
  }

  lemma CommittedGrows(codec: Codec, c: C.Cluster, a: C.Action)
    requires C.Enabled(c, a)
    ensures C.Do(codec, c, a).origin == c.origin && c.committed <= C.Do(codec, c, a).committed
  {
  }

  lemma StepKeepsReadsShown(wire: S.Wire, codec: Codec, j: Joint, a: Step, path: string)
    requires Joined(wire, j) && Enabled(wire, j, a) && AnswersReads(wire, codec, j, a, path)
    requires HandledReadsShown(codec, j, path)
    ensures HandledReadsShown(codec, Do(wire, codec, j, a), path)
  {
    var j' := Do(wire, codec, j, a);
    match a
    case Net(b) =>
      forall conn, index | 0 <= conn < |j'.session.conns| && 0 <= index < |j'.session.conns[conn].handled|
        ensures HandledShown(codec, j'.cluster, j'.session.conns[conn].handled[index], path)
      {
        if conn < |j.session.conns| {
          NetLeavesServer(wire, j.session, b, conn);
          assert HandledShown(codec, j.cluster, j.session.conns[conn].handled[index], path);
        }
      }
    case Inside(b) => ClusterKeepsReadsShown(codec, j, b, j', path);
    case Take(conn, node) => ClusterKeepsReadsShown(codec, j, Dispatched(wire, j, conn, node), j', path);
    case Answer(conn, response) =>
      AnsweringAppends(wire, j.session, conn, response);
      forall k, index | 0 <= k < |j'.session.conns| && 0 <= index < |j'.session.conns[k].handled|
        ensures HandledShown(codec, j'.cluster, j'.session.conns[k].handled[index], path)
      {
        if index < |j.session.conns[k].handled| {
          assert HandledShown(codec, j.cluster, j.session.conns[k].handled[index], path);
        }
      }
  }

  lemma ClusterKeepsReadsShown(codec: Codec, j: Joint, a: C.Action, j': Joint, path: string)
    requires C.Enabled(j.cluster, a) && HandledReadsShown(codec, j, path)
    requires j'.session == j.session && j'.cluster == C.Do(codec, j.cluster, a)
    ensures HandledReadsShown(codec, j', path)
  {
    CommittedGrows(codec, j.cluster, a);
    forall conn, index | 0 <= conn < |j'.session.conns| && 0 <= index < |j'.session.conns[conn].handled|
      ensures HandledShown(codec, j'.cluster, j'.session.conns[conn].handled[index], path)
    {
      var h := j.session.conns[conn].handled[index];
      assert HandledShown(codec, j.cluster, h, path);
      if ReadsPath(h.command, path) {
        ShownStays(codec, j.cluster, j'.cluster, path, h.response);
      }
    }
  }

  lemma {:induction false} RunsKeepReadsShown(wire: S.Wire, codec: Codec, j0: Joint, steps: seq<Step>, path: string)
    requires Initial(j0) && Execute(wire, codec, j0, steps).Some? && ReadsAnswered(wire, codec, j0, steps, path)
    ensures HandledReadsShown(codec, Execute(wire, codec, j0, steps).value, path)
  {
    if steps != [] {
      var before, a := steps[..|steps| - 1], steps[|steps| - 1];
      forall k | 0 <= k < |before| && Execute(wire, codec, j0, before[..k]).Some?
        ensures AnswersReads(wire, codec, Execute(wire, codec, j0, before[..k]).value, before[k], path)
      {
        assert before[..k] == steps[..k];
      }
      RunsKeepReadsShown(wire, codec, j0, before, path);
      RunsAreJoined(wire, codec, j0, before);
      StepKeepsReadsShown(wire, codec, Execute(wire, codec, j0, before).value, a, path);
    }
  }

  /** Reads end to end: a read whose path the servers answer from prefixes of the log returns to its caller
      what some prefix of the committed log shows at the path, and an error only if that prefix has one. */
  lemma ReadCallsSeeAPrefix(wire: S.Wire, codec: Codec, j0: Joint, steps: seq<Step>, i: nat) returns (m: nat)
    requires S.Lossless(wire) && ClearLengths(wire, steps) && Initial(j0) && Execute(wire, codec, j0, steps).Some?
    requires var s := Execute(wire, codec, j0, steps).value.session;
             i < |s.calls| && s.calls[i].outcome.FromServer? && s.calls[i].command.kind.ReadFile?
    requires ReadsAnswered(wire, codec, j0, steps, Execute(wire, codec, j0, steps).value.session.calls[i].command.path)
    ensures var j := Execute(wire, codec, j0, steps).value;
            ShownAt(codec, j.cluster, j.session.calls[i].command.path, j.session.calls[i].outcome.response, m)
  {
    var j := Execute(wire, codec, j0, steps).value;
    var response, path := j.session.calls[i].outcome.response, j.session.calls[i].command.path;
    NetPartRuns(wire, codec, j0, steps);
    NetPartIsClear(wire, steps);
    S.RunsStayRight(wire, NetPart(steps));
    assert S.Answers(j.session, i, response);
    var conn: nat, index: nat :| S.AnswersAt(j.session, i, response, conn, index);
    RunsKeepReadsShown(wire, codec, j0, steps, path);
    assert HandledShown(codec, j.cluster, j.session.conns[conn].handled[index], path);
    m :| ShownAt(codec, j.cluster, path, response, m);
  }
}
