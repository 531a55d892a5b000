/**
  The request/response protocol between `RpcClient::send_command` (client/cpp/src/rpc.cc) and
  `RpcServer::handle_connection` (src/rpc.cc).

  The client has at most one connection in use.  Whenever sending or receiving fails it drops that
  connection and never looks at it again, while the server may go on serving what already arrived
  there.  A connection is described by what was written to each direction and how far it was read.
 */
module Session {
  import opened Basics
  import opened Commands
  import opened Framing

  datatype Response = Response(success: bool, error: string, data: Bytes, entries: seq<string>)

  datatype Wire = Wire(packCommand: Command -> Bytes, unpackCommand: Bytes -> Option<Command>,
                       packResponse: Response -> Bytes, unpackResponse: Bytes -> Option<Response>)

  ghost predicate Lossless(wire: Wire)
  {
    && (forall c: Command :: wire.unpackCommand(wire.packCommand(c)) == Some(c))
    && (forall r: Response :: wire.unpackResponse(wire.packResponse(r)) == Some(r))
  }

  /** What the server did with one request frame: the command it decoded, and its response. */
  datatype Handled = Handled(command: Option<Command>, response: Response)

  datatype Conn = Conn(
    asked: seq<nat>,         // the calls whose request frames were written in full, in order
    sent: seq<Bytes>,        // the bodies of those frames
    tornUp: Bytes,           // a request frame that was cut short
    upRead: nat,             // how many bytes the server has consumed
    handled: seq<Handled>,   // the requests the server has dispatched, in order
    replying: bool,          // a response is computed and not yet written
    replies: seq<Bytes>,     // the bodies of the response frames written in full
    tornDown: Bytes,         // a response frame that was cut short
    downRead: nat,           // how many bytes the client has consumed
    taken: nat,              // how many responses the client has taken
    serving: bool)           // the server is still in its loop

  function Up(c: Conn): Bytes
  {
    Frames(c.sent) + c.tornUp
  }

  function Down(c: Conn): Bytes
  {
    Frames(c.replies) + c.tornDown
  }

  /** What `send_command` has returned: nothing yet, an error of its own, or a server response. */
  datatype Outcome = InFlight | LocalError | FromServer(response: Response)

  datatype Call = Call(command: Command, outcome: Outcome)

  datatype Stage = Idle | Sending | Receiving

  datatype State = State(calls: seq<Call>, conns: seq<Conn>, current: Option<nat>, stage: Stage)

  const FRESH_CONN: Conn := Conn([], [], [], 0, [], false, [], [], 0, 0, true)

  datatype Action =
    | Begin(command: Command, connects: bool)
    | Send
    | SendFails(k: nat)
    | Receive
    | ReceiveFails
    | Disconnect
    | ServerTakes(c: nat, response: Response)
    | ServerReplies(c: nat)
    | ServerReplyFails(c: nat, k: nat)
    | ServerCloses(c: nat)

  /** The call in progress is the last one. */
  function Last(s: State): nat
    requires s.calls != []
  {
    |s.calls| - 1
  }

  predicate Busy(s: State)
  {
    s.calls != [] && s.current.Some? && s.current.value < |s.conns|
  }

  function Request(wire: Wire, s: State): Bytes
    requires s.calls != []
  {
    wire.packCommand(s.calls[Last(s)].command)
  }

  function NextUp(c: Conn): Parsed
  {
    if c.upRead <= |Up(c)| then Parse(Up(c)[c.upRead..]) else Incomplete
  }

  function NextDown(c: Conn): Parsed
  {
    if c.downRead <= |Down(c)| then Parse(Down(c)[c.downRead..]) else Incomplete
  }

  predicate Enabled(wire: Wire, s: State, a: Action)
  {
    match a
    case Begin(_, _) => s.stage.Idle?
    case Send => s.stage.Sending? && Busy(s)
    case SendFails(k) => s.stage.Sending? && Busy(s) && k < |Frame(Request(wire, s))|
    case Receive => s.stage.Receiving? && Busy(s) && NextDown(s.conns[s.current.value]).Message?
    case ReceiveFails => s.stage.Receiving? && Busy(s)
    case Disconnect => s.stage.Idle?
    case ServerTakes(c, _) => c < |s.conns| && s.conns[c].serving && !s.conns[c].replying && NextUp(s.conns[c]).Message?
    case ServerReplies(c) => c < |s.conns| && s.conns[c].serving && s.conns[c].replying && s.conns[c].handled != []
                             && |Reply(wire, s.conns[c])| <= SIZE_LIMIT
    case ServerReplyFails(c, k) =>
      && c < |s.conns| && s.conns[c].serving && s.conns[c].replying && s.conns[c].handled != []
      && |Reply(wire, s.conns[c])| <= SIZE_LIMIT && k < |Frame(Reply(wire, s.conns[c]))|
    case ServerCloses(c) => c < |s.conns|
  }

  function Reply(wire: Wire, c: Conn): Bytes
    requires c.handled != []
  {
    wire.packResponse(c.handled[|c.handled| - 1].response)
  }

  function SetConn(s: State, i: nat, c: Conn): State
    requires i < |s.conns|
  {
    s.(conns := s.conns[i := c])
  }

  /** The call in progress ends; on an error the connection is dropped. */
  function Finish(s: State, outcome: Outcome): State
    requires s.calls != []
  {
    s.(calls := s.calls[Last(s) := s.calls[Last(s)].(outcome := outcome)], stage := Idle,
       current := if outcome.FromServer? then s.current else None)
  }

  function DoBegin(s: State, command: Command, connects: bool): State
  {
    var calls := s.calls + [Call(command, InFlight)];
    if s.current.Some? then s.(calls := calls, stage := Sending)
    else if connects
    then s.(calls := calls, conns := s.conns + [FRESH_CONN], current := Some(|s.conns|), stage := Sending)
    else s.(calls := s.calls + [Call(command, LocalError)])
  }

  function DoReceive(wire: Wire, s: State): State
    requires Enabled(wire, s, Receive)
  {
    var i := s.current.value;
    var c := s.conns[i];
    var m := NextDown(c).m;
    var s' := SetConn(s, i, c.(downRead := c.downRead + |Frame(m)|, taken := c.taken + 1));
    match wire.unpackResponse(m)
    case Some(r) => Finish(s', FromServer(r))
    case None => Finish(s', LocalError)
  }

  /** `process_request` up to its response; a body that does not decode gets an error response and
      ends the loop after it. */
  function DoServerTakes(wire: Wire, s: State, i: nat, response: Response): State
    requires Enabled(wire, s, ServerTakes(i, response))
  {
    var c := s.conns[i];
    var m := NextUp(c).m;
    SetConn(s, i, c.(upRead := c.upRead + |Frame(m)|, replying := true,
                     handled := c.handled + [Handled(wire.unpackCommand(m), response)]))
  }

  function Do(wire: Wire, s: State, a: Action): State
    requires Enabled(wire, s, a)
  {
    match a
    case Begin(command, connects) => DoBegin(s, command, connects)
    case Send =>
      var c := s.conns[s.current.value];
      var c' := c.(asked := c.asked + [Last(s)], sent := c.sent + [Request(wire, s)]);
      SetConn(s, s.current.value, c').(stage := Receiving)
    case SendFails(k) =>
      var c := s.conns[s.current.value];
      Finish(SetConn(s, s.current.value, c.(tornUp := Frame(Request(wire, s))[..k])), LocalError)
    case Receive => DoReceive(wire, s)
    case ReceiveFails => Finish(s, LocalError)
    case Disconnect => s.(current := None)
    case ServerTakes(i, response) => DoServerTakes(wire, s, i, response)
    case ServerReplies(i) =>
      var c := s.conns[i];
      SetConn(s, i, c.(replies := c.replies + [Reply(wire, c)], replying := false,
                       serving := c.handled[|c.handled| - 1].command.Some?))
    case ServerReplyFails(i, k) =>
      var c := s.conns[i];
      SetConn(s, i, c.(tornDown := Frame(Reply(wire, c))[..k], replying := false, serving := false))
    case ServerCloses(i) => SetConn(s, i, s.conns[i].(serving := false))
  }

  function Execute(wire: Wire, s: State, actions: seq<Action>): Option<State>
  {
    if actions == [] then Some(s)
    else
      match Execute(wire, s, actions[..|actions| - 1])
      case None => None
      case Some(m) =>
        if Enabled(wire, m, actions[|actions| - 1]) then Some(Do(wire, m, actions[|actions| - 1])) else None
  }

  const START: State := State([], [], None, Idle)

  /** The command's packed form has a length that survives its 32-bit header, or is refused by it. */
  predicate ClearLength(wire: Wire, a: Action)
  {
    a.Begin? ==> Unambiguous(wire.packCommand(a.command))
  }

  /* ---------- One connection ---------- */

  /** The server side: it has dispatched a prefix of the requests, each as the command that was sent,
      and answered a prefix of those. */
  ghost predicate ServerRight(wire: Wire, calls: seq<Call>, c: Conn)
  {
    && |c.asked| == |c.sent|
    && (forall j :: 0 <= j < |c.asked| ==> RequestRight(wire, calls, c, j))
    && !Parse(c.tornUp).Message?
    && |c.handled| <= |c.asked| && c.upRead == |Frames(c.sent[..|c.handled|])|
    && (forall j :: 0 <= j < |c.handled| ==> HandledRight(calls, c, j))
    && |c.replies| <= |c.handled|
    && (forall j :: 0 <= j < |c.replies| ==> ReplyRight(wire, c, j))
    && (c.serving ==> c.tornDown == [] && |c.handled| == |c.replies| + if c.replying then 1 else 0)
    && !Parse(c.tornDown).Message?
  }

  ghost predicate RequestRight(wire: Wire, calls: seq<Call>, c: Conn, j: nat)
    requires j < |c.asked| == |c.sent|
  {
    && c.asked[j] < |calls|
    && c.sent[j] == wire.packCommand(calls[c.asked[j]].command) && Unambiguous(c.sent[j])
  }

  ghost predicate HandledRight(calls: seq<Call>, c: Conn, j: nat)
    requires j < |c.handled| <= |c.asked|
  {
    c.asked[j] < |calls| && c.handled[j].command == Some(calls[c.asked[j]].command)
  }

  ghost predicate ReplyRight(wire: Wire, c: Conn, j: nat)
    requires j < |c.replies| <= |c.handled|
  {
    c.replies[j] == wire.packResponse(c.handled[j].response) && |c.replies[j]| < WORD
  }

  /** The client side: it has taken a prefix of the replies. */
  ghost predicate ClientRight(c: Conn)
  {
    c.taken <= |c.replies| && c.downRead == |Frames(c.replies[..c.taken])|
  }

  /** A response that a call returned was produced for that very call. */
  ghost predicate Answers(s: State, i: nat, response: Response)
  {
    exists k: nat, j: nat :: AnswersAt(s, i, response, k, j)
  }

  ghost predicate AnswersAt(s: State, i: nat, response: Response, k: nat, j: nat)
  {
    && k < |s.conns| && j < |s.conns[k].asked| && j < |s.conns[k].handled|
    && s.conns[k].asked[j] == i && i < |s.calls|
    && s.conns[k].handled[j] == Handled(Some(s.calls[i].command), response)
  }

  /** The connection in use is in step with the call in progress. */
  ghost predicate InStep(s: State)
  {
    && (!s.stage.Idle? ==> s.calls != [] && s.current.Some?)
    && (s.current.Some? ==>
          && s.current.value < |s.conns|
          && var c := s.conns[s.current.value];
             && c.tornUp == []
             && (if s.stage.Receiving? then c.taken + 1 == |c.asked| && c.asked[c.taken] == Last(s)
                 else c.taken == |c.asked|))
  }

  ghost predicate ConnsRight(wire: Wire, s: State)
  {
    forall k :: 0 <= k < |s.conns| ==> ServerRight(wire, s.calls, s.conns[k]) && ClientRight(s.conns[k])
  }

  ghost predicate CallsRight(s: State)
  {
    forall i :: 0 <= i < |s.calls| && s.calls[i].outcome.FromServer? ==> Answers(s, i, s.calls[i].outcome.response)
  }

  ghost predicate CallsClear(wire: Wire, s: State)
  {
    forall i :: 0 <= i < |s.calls| ==> Unambiguous(wire.packCommand(s.calls[i].command))
  }

  ghost predicate Right(wire: Wire, s: State)
  {
    ConnsRight(wire, s) && InStep(s) && CallsRight(s) && CallsClear(wire, s)
  }

  /* ---------- What the next frame is ---------- */

  lemma FramesFrom(ms: seq<Bytes>, torn: Bytes, n: nat)
    requires n <= |ms|
    ensures |Frames(ms[..n])| <= |Frames(ms) + torn|
    ensures (Frames(ms) + torn)[|Frames(ms[..n])|..] == Frames(ms[n..]) + torn
    ensures n < |ms| ==> Frames(ms[n..]) + torn == Frame(ms[n]) + (Frames(ms[n + 1..]) + torn)
    ensures n < |ms| ==> |Frames(ms[..n + 1])| == |Frames(ms[..n])| + |Frame(ms[n])|
    ensures n == |ms| ==> Frames(ms[n..]) + torn == torn
  {
    assert ms == ms[..n] + ms[n..];
    FramesAppend(ms[..n], ms[n..]);
    if n < |ms| {
      assert ms[n..][0] == ms[n] && ms[n..][1..] == ms[n + 1..];
      assert ms[..n + 1] == ms[..n] + [ms[n]];
      FramesSnoc(ms[..n], ms[n]);
    }
  }

  /** If the server can take a request, it is the first one not yet dispatched. */
  lemma NextUpIsNextRequest(wire: Wire, calls: seq<Call>, c: Conn)
    requires ServerRight(wire, calls, c) && NextUp(c).Message?
    ensures |c.handled| < |c.asked| && NextUp(c).m == c.sent[|c.handled|]
    ensures c.upRead + |Frame(NextUp(c).m)| == |Frames(c.sent[..|c.handled| + 1])|
  {
    var h := |c.handled|;
    FramesFrom(c.sent, c.tornUp, h);
    if h < |c.asked| {
      assert RequestRight(wire, calls, c, h);
      FrameThenRest(c.sent[h], Frames(c.sent[h + 1..]) + c.tornUp);
    }
  }

  /** If the client can take a response, it is the first one not yet taken. */
  lemma NextDownIsNextReply(wire: Wire, calls: seq<Call>, c: Conn)
    requires ServerRight(wire, calls, c) && ClientRight(c) && NextDown(c).Message?
    ensures c.taken < |c.replies| && NextDown(c).m == c.replies[c.taken]
    ensures c.downRead + |Frame(NextDown(c).m)| == |Frames(c.replies[..c.taken + 1])|
  {
    var n := c.taken;
    FramesFrom(c.replies, c.tornDown, n);
    if n < |c.replies| {
      assert ReplyRight(wire, c, n);
      FrameThenRest(c.replies[n], Frames(c.replies[n + 1..]) + c.tornDown);
    }
  }

  /* ---------- What growth preserves ---------- */

  predicate SameCommands(calls: seq<Call>, calls': seq<Call>)
  {
    |calls| <= |calls'| && forall i :: 0 <= i < |calls| ==> calls'[i].command == calls[i].command
  }

  lemma ServerRightGrows(wire: Wire, calls: seq<Call>, calls': seq<Call>, c: Conn)
    requires ServerRight(wire, calls, c) && SameCommands(calls, calls')
    ensures ServerRight(wire, calls', c)
  {
    forall j | 0 <= j < |c.asked| ensures RequestRight(wire, calls', c, j) {
      assert RequestRight(wire, calls, c, j);
    }
    forall j | 0 <= j < |c.handled| ensures HandledRight(calls', c, j) {
      assert HandledRight(calls, c, j);
    }
  }

  /** Histories only get longer. */
  predicate Grows(s: State, s': State)
  {
    && SameCommands(s.calls, s'.calls) && |s.conns| <= |s'.conns|
    && forall k :: 0 <= k < |s.conns| ==>
         s.conns[k].asked <= s'.conns[k].asked && s.conns[k].handled <= s'.conns[k].handled
  }

  lemma AnswersGrow(s: State, s': State, i: nat, response: Response)
    requires Grows(s, s') && Answers(s, i, response)
    ensures Answers(s', i, response)
  {
    var k: nat, j: nat :| AnswersAt(s, i, response, k, j);
    assert AnswersAt(s', i, response, k, j);
  }

  /** Finished calls stay answered while nothing else gets an answer. */
  lemma CallsStayRight(s: State, s': State)
    requires CallsRight(s) && Grows(s, s')
    requires forall i :: 0 <= i < |s'.calls| && s'.calls[i].outcome.FromServer? ==>
                           i < |s.calls| && s'.calls[i].outcome == s.calls[i].outcome
    ensures CallsRight(s')
  {
    forall i | 0 <= i < |s'.calls| && s'.calls[i].outcome.FromServer?
      ensures Answers(s', i, s'.calls[i].outcome.response)
    {
      AnswersGrow(s, s', i, s.calls[i].outcome.response);
    }
  }

  lemma ConnsStayRight(wire: Wire, s: State, s': State)
    requires ConnsRight(wire, s) && SameCommands(s.calls, s'.calls) && s'.conns == s.conns
    ensures ConnsRight(wire, s')
  {
    forall k | 0 <= k < |s'.conns| ensures ServerRight(wire, s'.calls, s'.conns[k]) {
      ServerRightGrows(wire, s.calls, s'.calls, s.conns[k]);
    }
  }

  /** The parts of `ServerRight` that depend on the history only. */
  lemma HistoryRight(wire: Wire, calls: seq<Call>, c: Conn, c': Conn)
    requires ServerRight(wire, calls, c)
    requires c'.asked == c.asked && c'.sent == c.sent && c'.handled == c.handled && c'.replies == c.replies
    ensures forall j :: 0 <= j < |c'.asked| ==> RequestRight(wire, calls, c', j)
    ensures forall j :: 0 <= j < |c'.handled| ==> HandledRight(calls, c', j)
    ensures forall j :: 0 <= j < |c'.replies| ==> ReplyRight(wire, c', j)
  {
    forall j | 0 <= j < |c'.asked| ensures RequestRight(wire, calls, c', j) {
      assert RequestRight(wire, calls, c, j);
    }
    forall j | 0 <= j < |c'.handled| ensures HandledRight(calls, c', j) {
      assert HandledRight(calls, c, j);
    }
    forall j | 0 <= j < |c'.replies| ensures ReplyRight(wire, c', j) {
      assert ReplyRight(wire, c, j);
    }
  }

  /* ---------- Client steps ---------- */

  lemma BeginStaysRight(wire: Wire, s: State, a: Action)
    requires Right(wire, s) && Enabled(wire, s, a) && a.Begin? && ClearLength(wire, a)
    ensures Right(wire, Do(wire, s, a))
  {
    var s' := Do(wire, s, a);
    CallsStayRight(s, s');
    forall k | 0 <= k < |s'.conns| ensures ServerRight(wire, s'.calls, s'.conns[k]) && ClientRight(s'.conns[k]) {
      if k < |s.conns| {
        ServerRightGrows(wire, s.calls, s'.calls, s.conns[k]);
      }
    }
  }

  lemma SendStaysRight(wire: Wire, s: State)
    requires Right(wire, s) && Enabled(wire, s, Send)
    ensures Right(wire, Do(wire, s, Send))
  {
    var s', i := Do(wire, s, Send), s.current.value;
    var c, c' := s.conns[i], s'.conns[i];
    CallsStayRight(s, s');
    SentIsRight(wire, s, c, c');
    forall k | 0 <= k < |s'.conns| ensures ServerRight(wire, s'.calls, s'.conns[k]) && ClientRight(s'.conns[k]) {
    }
  }

  lemma SentIsRight(wire: Wire, s: State, c: Conn, c': Conn)
    requires s.calls != [] && CallsClear(wire, s) && ServerRight(wire, s.calls, c) && ClientRight(c) && c.tornUp == []
    requires c' == c.(asked := c.asked + [Last(s)], sent := c.sent + [Request(wire, s)])
    ensures ServerRight(wire, s.calls, c') && ClientRight(c')
  {
    var h := |c.handled|;
    assert c'.sent[..h] == c.sent[..h];
    forall j | 0 <= j < |c'.asked| ensures RequestRight(wire, s.calls, c', j) {
      assert j < |c.asked| ==> RequestRight(wire, s.calls, c, j);
    }
    forall j | 0 <= j < |c'.handled| ensures HandledRight(s.calls, c', j) {
      assert HandledRight(s.calls, c, j);
    }
    forall j | 0 <= j < |c'.replies| ensures ReplyRight(wire, c', j) {
      assert ReplyRight(wire, c, j);
    }
  }

  /** Dropping the connection in use, with or without a torn frame left behind. */
  lemma DropStaysRight(wire: Wire, s: State, m: State, s': State)
    requires Right(wire, s) && s.calls != [] && !s.stage.Idle?
    requires ConnsRight(wire, m) && m.calls == s.calls && |m.conns| == |s.conns|
    requires forall k :: 0 <= k < |s.conns| ==>
               m.conns[k].asked == s.conns[k].asked && m.conns[k].handled == s.conns[k].handled
    requires s' == Finish(m, LocalError)
    ensures Right(wire, s')
  {
    assert Grows(s, s');
    CallsStayRight(s, s');
    ConnsStayRight(wire, m, s');
  }

  lemma SendFailsStaysRight(wire: Wire, s: State, k: nat)
    requires Right(wire, s) && Enabled(wire, s, SendFails(k))
    ensures Right(wire, Do(wire, s, SendFails(k)))
  {
    var i := s.current.value;
    var c := s.conns[i];
    var c' := c.(tornUp := Frame(Request(wire, s))[..k]);
    var m := SetConn(s, i, c');
    PartOfFrame(Request(wire, s), k);
    TornUpIsRight(wire, s.calls, c, c');
    DropStaysRight(wire, s, m, Do(wire, s, SendFails(k)));
  }

  lemma TornUpIsRight(wire: Wire, calls: seq<Call>, c: Conn, c': Conn)
    requires ServerRight(wire, calls, c) && ClientRight(c)
    requires c' == c.(tornUp := c'.tornUp) && !Parse(c'.tornUp).Message?
    ensures ServerRight(wire, calls, c') && ClientRight(c')
  {
    HistoryRight(wire, calls, c, c');
  }

  /** The response that the client takes is the one produced for the call in progress. */
  lemma ReceivedIsAnswer(wire: Wire, s: State) returns (c': Conn, response: Response)
    requires Lossless(wire) && Right(wire, s) && Enabled(wire, s, Receive)
    ensures var c := s.conns[s.current.value];
            && c.taken < |c.handled| && c.handled[c.taken] == Handled(Some(s.calls[Last(s)].command), response)
            && c' == c.(downRead := c'.downRead, taken := c.taken + 1) && ClientRight(c')
            && Do(wire, s, Receive) == Finish(SetConn(s, s.current.value, c'), FromServer(response))
  {
    var i := s.current.value;
    var c := s.conns[i];
    NextDownIsNextReply(wire, s.calls, c);
    var n := c.taken;
    assert ReplyRight(wire, c, n) && HandledRight(s.calls, c, n);
    response := c.handled[n].response;
    c' := c.(downRead := c.downRead + |Frame(NextDown(c).m)|, taken := n + 1);
    assert wire.unpackResponse(c.replies[n]) == Some(response);
  }

  lemma ReceiveStaysRight(wire: Wire, s: State)
    requires Lossless(wire) && Right(wire, s) && Enabled(wire, s, Receive)
    ensures Right(wire, Do(wire, s, Receive))
  {
    var c', response := ReceivedIsAnswer(wire, s);
    AnswerStaysRight(wire, s, c', response, Do(wire, s, Receive));
  }

  lemma AnswerStaysRight(wire: Wire, s: State, c': Conn, response: Response, s': State)
    requires Right(wire, s) && s.stage.Receiving?
    requires var c := s.conns[s.current.value];
             && c.taken < |c.handled| && c.handled[c.taken] == Handled(Some(s.calls[Last(s)].command), response)
             && c' == c.(downRead := c'.downRead, taken := c.taken + 1) && ClientRight(c')
    requires s' == Finish(SetConn(s, s.current.value, c'), FromServer(response))
    ensures Right(wire, s')
  {
    var i := s.current.value;
    var m := SetConn(s, i, c');
    TakenIsRight(wire, s.calls, s.conns[i], c');
    assert ConnsRight(wire, m);
    ConnsStayRight(wire, m, s');
    assert Grows(s, s');
    assert AnswersAt(s', Last(s), response, i, s.conns[i].taken);
    LastCallAnswered(s, s', response);
  }

  /** Once the call in progress has its answer, every answered call has. */
  lemma LastCallAnswered(s: State, s': State, response: Response)
    requires CallsRight(s) && Grows(s, s') && s.calls != [] && |s'.calls| == |s.calls|
    requires Answers(s', Last(s), response) && s'.calls[Last(s)].outcome == FromServer(response)
    requires forall x :: 0 <= x < Last(s) ==> s'.calls[x] == s.calls[x]
    ensures CallsRight(s')
  {
    forall x | 0 <= x < |s'.calls| && s'.calls[x].outcome.FromServer?
      ensures Answers(s', x, s'.calls[x].outcome.response)
    {
      if x != Last(s) {
        AnswersGrow(s, s', x, s.calls[x].outcome.response);
      }
    }
  }

  lemma TakenIsRight(wire: Wire, calls: seq<Call>, c: Conn, c': Conn)
    requires ServerRight(wire, calls, c) && c' == c.(downRead := c'.downRead, taken := c'.taken) && ClientRight(c')
    ensures ServerRight(wire, calls, c')
  {
    HistoryRight(wire, calls, c, c');
  }

  /* ---------- Server steps ---------- */

  /** A server step on one connection keeps everything about the client. */
  lemma ServerStaysRight(wire: Wire, s: State, i: nat, c': Conn)
    requires Right(wire, s) && i < |s.conns| && ServerRight(wire, s.calls, c') && ClientRight(c')
    requires c'.asked == s.conns[i].asked && s.conns[i].handled <= c'.handled
    requires c'.taken == s.conns[i].taken && c'.tornUp == s.conns[i].tornUp
    ensures Right(wire, SetConn(s, i, c'))
  {
    var s' := SetConn(s, i, c');
    assert Grows(s, s');
    CallsStayRight(s, s');
  }

  lemma TakesIsRight(wire: Wire, s: State, i: nat, response: Response)
    requires Lossless(wire) && Right(wire, s) && Enabled(wire, s, ServerTakes(i, response))
    ensures Right(wire, Do(wire, s, ServerTakes(i, response)))
  {
    var c, c' := s.conns[i], Do(wire, s, ServerTakes(i, response)).conns[i];
    NextUpIsNextRequest(wire, s.calls, c);
    var h := |c.handled|;
    assert RequestRight(wire, s.calls, c, h);
    forall j | 0 <= j < |c'.asked| ensures RequestRight(wire, s.calls, c', j) {
      assert RequestRight(wire, s.calls, c, j);
    }
    forall j | 0 <= j < |c'.handled| ensures HandledRight(s.calls, c', j) {
      assert j < h ==> HandledRight(s.calls, c, j);
    }
    forall j | 0 <= j < |c'.replies| ensures ReplyRight(wire, c', j) {
      assert ReplyRight(wire, c, j);
    }
    ServerStaysRight(wire, s, i, c');
  }

  lemma RepliesIsRight(wire: Wire, s: State, i: nat)
    requires Right(wire, s) && Enabled(wire, s, ServerReplies(i))
    ensures Right(wire, Do(wire, s, ServerReplies(i)))
  {
    var c, c' := s.conns[i], Do(wire, s, ServerReplies(i)).conns[i];
    assert c'.replies[..c.taken] == c.replies[..c.taken];
    forall j | 0 <= j < |c'.asked| ensures RequestRight(wire, s.calls, c', j) {
      assert RequestRight(wire, s.calls, c, j);
    }
    forall j | 0 <= j < |c'.handled| ensures HandledRight(s.calls, c', j) {
      assert HandledRight(s.calls, c, j);
    }
    forall j | 0 <= j < |c'.replies| ensures ReplyRight(wire, c', j) {
      assert j < |c.replies| ==> ReplyRight(wire, c, j);
    }
    ServerStaysRight(wire, s, i, c');
  }

  /** The server leaves its loop, possibly in the middle of a response. */
  lemma StopsIsRight(wire: Wire, s: State, i: nat, c': Conn)
    requires Right(wire, s) && i < |s.conns| && !Parse(c'.tornDown).Message?
    requires c' == s.conns[i].(tornDown := c'.tornDown, replying := c'.replying, serving := false)
    ensures Right(wire, SetConn(s, i, c'))
  {
    var c := s.conns[i];
    HistoryRight(wire, s.calls, c, c');
    ServerStaysRight(wire, s, i, c');
  }

  /* ---------- Every run ---------- */

  lemma StepStaysRight(wire: Wire, s: State, a: Action)
    requires Lossless(wire) && Right(wire, s) && Enabled(wire, s, a) && ClearLength(wire, a)
    ensures Right(wire, Do(wire, s, a))
  {
    match a
    case Begin(_, _) => BeginStaysRight(wire, s, a);
    case Send => SendStaysRight(wire, s);
    case SendFails(k) => SendFailsStaysRight(wire, s, k);
    case Receive => ReceiveStaysRight(wire, s);
    case ReceiveFails => DropStaysRight(wire, s, s, Do(wire, s, a));
    case Disconnect =>
      ConnsStayRight(wire, s, Do(wire, s, a));
      CallsStayRight(s, Do(wire, s, a));
    case ServerTakes(i, response) => TakesIsRight(wire, s, i, response);
    case ServerReplies(i) => RepliesIsRight(wire, s, i);
    case ServerReplyFails(i, k) =>
      PartOfFrame(Reply(wire, s.conns[i]), k);
      StopsIsRight(wire, s, i, Do(wire, s, a).conns[i]);
    case ServerCloses(i) => StopsIsRight(wire, s, i, Do(wire, s, a).conns[i]);
  }

  lemma {:induction false} RunsStayRight(wire: Wire, actions: seq<Action>)
    requires Lossless(wire) && forall k :: 0 <= k < |actions| ==> ClearLength(wire, actions[k])
    ensures Execute(wire, START, actions).Some? ==> Right(wire, Execute(wire, START, actions).value)
  {
    if actions != [] {
      var before := actions[..|actions| - 1];
      RunsStayRight(wire, before);
      if Execute(wire, START, actions).Some? {
        StepStaysRight(wire, Execute(wire, START, before).value, actions[|actions| - 1]);
      }
    }
  }

  /** Request/response pairing: whatever server response a call returned, the server produced it for
      a request of that call, having decoded that call's command. */
  lemma ResponsesAnswerTheirCall(wire: Wire, actions: seq<Action>, i: nat)
    requires Lossless(wire) && forall k :: 0 <= k < |actions| ==> ClearLength(wire, actions[k])
    requires Execute(wire, START, actions).Some? && i < |Execute(wire, START, actions).value.calls|
    requires Execute(wire, START, actions).value.calls[i].outcome.FromServer?
    ensures var s := Execute(wire, START, actions).value;
            exists k: nat, j: nat ::
              && k < |s.conns| && j < |s.conns[k].asked| && j < |s.conns[k].handled| && s.conns[k].asked[j] == i
              && s.conns[k].handled[j] == Handled(Some(s.calls[i].command), s.calls[i].outcome.response)
  {
    RunsStayRight(wire, actions);
    var s := Execute(wire, START, actions).value;
    assert Answers(s, i, s.calls[i].outcome.response);
    var k: nat, j: nat :| AnswersAt(s, i, s.calls[i].outcome.response, k, j);
  }

  /** The server dispatches no more requests than were sent. */
  lemma HandledWereAsked(wire: Wire, actions: seq<Action>, k: nat)
    requires Lossless(wire) && forall x :: 0 <= x < |actions| ==> ClearLength(wire, actions[x])
    requires Execute(wire, START, actions).Some? && k < |Execute(wire, START, actions).value.conns|
    ensures var c := Execute(wire, START, actions).value.conns[k]; |c.handled| <= |c.asked|
  {
    RunsStayRight(wire, actions);
  }

  /* ---------- One request frame per call ---------- */

  /** No call has two request frames, on one connection or two; and the call that is about to be sent has
      none. */
  ghost predicate AskedOnce(s: State)
  {
    && (!s.stage.Idle? ==> s.calls != [])
    && (forall k, j :: 0 <= k < |s.conns| && 0 <= j < |s.conns[k].asked| ==>
          s.conns[k].asked[j] < |s.calls| && (s.stage.Sending? ==> s.conns[k].asked[j] < |s.calls| - 1))
    && (forall k, j, k', j' ::
          (&& 0 <= k < |s.conns| && 0 <= j < |s.conns[k].asked|
           && 0 <= k' < |s.conns| && 0 <= j' < |s.conns[k'].asked|
           && s.conns[k].asked[j] == s.conns[k'].asked[j']) ==> k == k' && j == j')
  }

  /** Steps that put no request frame on the wire. */
  lemma AskedOnceKept(s: State, s': State)
    requires AskedOnce(s) && |s.conns| <= |s'.conns| && |s.calls| <= |s'.calls|
    requires forall k :: 0 <= k < |s.conns| ==> s'.conns[k].asked == s.conns[k].asked
    requires forall k :: |s.conns| <= k < |s'.conns| ==> s'.conns[k].asked == []
    requires !s'.stage.Idle? ==> s'.calls != []
    requires s'.stage.Sending? ==> |s.calls| < |s'.calls| || s.stage.Sending?
    ensures AskedOnce(s')
  {
  }

  lemma SentOnce(s: State, s': State, i: nat)
    requires AskedOnce(s) && s.stage.Sending? && i < |s.conns| && s'.calls == s.calls && s'.stage.Receiving?
    requires |s'.conns| == |s.conns| && s'.conns == s.conns[i := s'.conns[i]]
    requires s'.conns[i].asked == s.conns[i].asked + [Last(s)]
    ensures AskedOnce(s')
  {
  }

  /** What each step other than sending does to the frames. */
  lemma AskedFrame(wire: Wire, s: State, a: Action)
    requires Enabled(wire, s, a) && !a.Send? && AskedOnce(s)
    ensures var s' := Do(wire, s, a);
            && |s.conns| <= |s'.conns| && |s.calls| <= |s'.calls|
            && (forall k :: 0 <= k < |s.conns| ==> s'.conns[k].asked == s.conns[k].asked)
            && (forall k :: |s.conns| <= k < |s'.conns| ==> s'.conns[k].asked == [])
            && (!s'.stage.Idle? ==> s'.calls != [])
            && (s'.stage.Sending? ==> |s.calls| < |s'.calls| || s.stage.Sending?)
  {
  }

  lemma StepAsksOnce(wire: Wire, s: State, a: Action)
    requires AskedOnce(s) && Enabled(wire, s, a)
    ensures AskedOnce(Do(wire, s, a))
  {
    var s' := Do(wire, s, a);
    if a.Send? {
      SentOnce(s, s', s.current.value);
    } else {
      AskedFrame(wire, s, a);
      AskedOnceKept(s, s');
    }
  }

  lemma {:induction false} RunsAskOnce(wire: Wire, actions: seq<Action>)
    requires Execute(wire, START, actions).Some?
    ensures AskedOnce(Execute(wire, START, actions).value)
  {
    if actions != [] {
      var before := actions[..|actions| - 1];
      RunsAskOnce(wire, before);
      StepAsksOnce(wire, Execute(wire, START, before).value, actions[|actions| - 1]);
    }
  }

  /** Each call puts at most one request frame on the wire, over all connections it ever used. */
  lemma CallsAskAtMostOnce(wire: Wire, actions: seq<Action>, k: nat, j: nat, k': nat, j': nat)
    requires Execute(wire, START, actions).Some?
    ensures var s := Execute(wire, START, actions).value;
            (&& k < |s.conns| && j < |s.conns[k].asked| && k' < |s.conns| && j' < |s.conns[k'].asked|
             && s.conns[k].asked[j] == s.conns[k'].asked[j']) ==> k == k' && j == j'
  {
    RunsAskOnce(wire, actions);
  }

  /* ---------- What the server does whatever it is sent ---------- */

  /** Only the last request of a connection can have failed to decode, and it is the end of the loop; every
      response written is one that was computed, in order, and at most a hundred mebibytes long. */
  ghost predicate LoopRight(wire: Wire, c: Conn)
  {
    && (forall j :: 0 <= j < |c.handled| - 1 ==> c.handled[j].command.Some?)
    && (c.handled != [] && c.handled[|c.handled| - 1].command.None? && c.serving ==> c.replying)
    && |c.replies| + (if c.replying then 1 else 0) <= |c.handled|
    && (c.serving && !c.replying ==> |c.replies| == |c.handled|)
    && (c.serving && c.replying ==> |c.replies| + 1 == |c.handled|)
    && forall j :: 0 <= j < |c.replies| ==> ReplyOf(wire, c, j)
  }

  ghost predicate ReplyOf(wire: Wire, c: Conn, j: nat)
    requires j < |c.replies|
  {
    && j < |c.handled| && c.replies[j] == wire.packResponse(c.handled[j].response)
    && |c.replies[j]| <= 100 * 1024 * 1024
  }

  /** Steps that leave the server's side of a connection alone, but for leaving the loop. */
  lemma LoopKept(wire: Wire, c: Conn, c': Conn)
    requires LoopRight(wire, c) && c'.handled == c.handled && c'.replies == c.replies
    requires c'.replying ==> c.replying
    requires c'.serving ==> c.serving && c'.replying == c.replying
    ensures LoopRight(wire, c')
  {
    forall j | 0 <= j < |c'.replies| ensures ReplyOf(wire, c', j) {
      assert ReplyOf(wire, c, j);
    }
  }

  lemma LoopTakes(wire: Wire, c: Conn, h: Handled, upRead: nat)
    requires LoopRight(wire, c) && c.serving && !c.replying
    ensures LoopRight(wire, c.(upRead := upRead, replying := true, handled := c.handled + [h]))
  {
    var c' := c.(upRead := upRead, replying := true, handled := c.handled + [h]);
    forall j | 0 <= j < |c'.replies| ensures ReplyOf(wire, c', j) {
      assert ReplyOf(wire, c, j);
    }
  }

  lemma LoopReplies(wire: Wire, c: Conn)
    requires LoopRight(wire, c) && c.serving && c.replying && c.handled != [] && |Reply(wire, c)| <= SIZE_LIMIT
    ensures LoopRight(wire, c.(replies := c.replies + [Reply(wire, c)], replying := false,
                               serving := c.handled[|c.handled| - 1].command.Some?))
  {
    var c' := c.(replies := c.replies + [Reply(wire, c)], replying := false,
                 serving := c.handled[|c.handled| - 1].command.Some?);
    forall j | 0 <= j < |c'.replies| ensures ReplyOf(wire, c', j) {
      assert j < |c.replies| ==> ReplyOf(wire, c, j);
    }
  }

  lemma StepKeepsLoop(wire: Wire, s: State, a: Action, k: nat)
    requires Enabled(wire, s, a) && k < |Do(wire, s, a).conns| && (k < |s.conns| ==> LoopRight(wire, s.conns[k]))
    ensures LoopRight(wire, Do(wire, s, a).conns[k])
  {
    var s' := Do(wire, s, a);
    if k < |s.conns| {
      var c := s.conns[k];
      if a == ServerReplies(k) {
        LoopReplies(wire, c);
      } else if a.ServerTakes? && a.c == k {
        LoopTakes(wire, c, Handled(wire.unpackCommand(NextUp(c).m), a.response), c.upRead + |Frame(NextUp(c).m)|);
      } else {
        LoopUntouched(wire, s, a, k);
        LoopKept(wire, c, s'.conns[k]);
      }
    }
  }

  lemma LoopUntouched(wire: Wire, s: State, a: Action, k: nat)
    requires Enabled(wire, s, a) && k < |s.conns| && a != ServerReplies(k) && !(a.ServerTakes? && a.c == k)
    ensures k < |Do(wire, s, a).conns|
    ensures var c, c' := s.conns[k], Do(wire, s, a).conns[k];
            && c'.handled == c.handled && c'.replies == c.replies && (c'.replying ==> c.replying)
            && (c'.serving ==> c.serving && c'.replying == c.replying)
  {
  }

  /** In every run, whatever bytes arrive and whatever the encoding: a request that does not decode is the
      last one its connection serves, and responses are written in the order of the requests, one each. */
  lemma {:induction false} ServerLoopHolds(wire: Wire, actions: seq<Action>, k: nat)
    requires Execute(wire, START, actions).Some? && k < |Execute(wire, START, actions).value.conns|
    ensures LoopRight(wire, Execute(wire, START, actions).value.conns[k])
  {
    if actions != [] {
      var before, a := actions[..|actions| - 1], actions[|actions| - 1];
      var s := Execute(wire, START, before).value;
      if k < |s.conns| {
        ServerLoopHolds(wire, before, k);
      }
      StepKeepsLoop(wire, s, a, k);
    }
  }

  /* ---------- What the client does whatever it is sent ---------- */

  /** How many calls returned an error of their own. */
  function LocalErrors(calls: seq<Call>): nat
  {
    if calls == [] then 0
    else LocalErrors(calls[..|calls| - 1]) + if calls[|calls| - 1].outcome.LocalError? then 1 else 0
  }

  /** How often the client was told to disconnect. */
  function Disconnects(actions: seq<Action>): nat
  {
    if actions == [] then 0
    else Disconnects(actions[..|actions| - 1]) + if actions[|actions| - 1].Disconnect? then 1 else 0
  }

  /** Calls end one after the other, and one that failed leaves no connection behind for the next. */
  ghost predicate CallsEnd(s: State)
  {
    && (!s.stage.Idle? ==> s.calls != [] && s.current.Some? && s.calls[|s.calls| - 1].outcome.InFlight?)
    && (forall i :: 0 <= i < |s.calls| && (s.stage.Idle? || i < |s.calls| - 1) ==> !s.calls[i].outcome.InFlight?)
    && (s.calls != [] && s.calls[|s.calls| - 1].outcome.LocalError? ==> s.current.None?)
  }

  /** The last call, which was in flight, ends. */
  lemma LastEnds(calls: seq<Call>, outcome: Outcome)
    requires calls != [] && calls[|calls| - 1].outcome.InFlight?
    ensures var last := |calls| - 1;
            LocalErrors(calls[last := calls[last].(outcome := outcome)]) ==
            LocalErrors(calls) + if outcome.LocalError? then 1 else 0
  {
    var last := |calls| - 1;
    assert calls[last := calls[last].(outcome := outcome)][..last] == calls[..last];
  }

  lemma OneMoreCall(calls: seq<Call>, call: Call)
    ensures LocalErrors(calls + [call]) == LocalErrors(calls) + if call.outcome.LocalError? then 1 else 0
  {
    assert (calls + [call])[..|calls|] == calls;
  }

  lemma StepEndsCalls(wire: Wire, s: State, a: Action)
    requires CallsEnd(s) && Enabled(wire, s, a)
    ensures CallsEnd(Do(wire, s, a))
  {
  }

  /** A new connection is opened only after one was given up. */
  lemma StepKeepsConnections(wire: Wire, s: State, a: Action)
    requires CallsEnd(s) && Enabled(wire, s, a)
    ensures var s' := Do(wire, s, a);
            |s'.conns| + LocalErrors(s.calls) + (if s.current.Some? then 1 else 0) <=
            |s.conns| + LocalErrors(s'.calls) + (if s'.current.Some? then 1 else 0) + (if a.Disconnect? then 1 else 0)
  {
    match a
    case Begin(command, _) =>
      OneMoreCall(s.calls, Call(command, InFlight));
      OneMoreCall(s.calls, Call(command, LocalError));
    case SendFails(_) => LastEnds(s.calls, LocalError);
    case ReceiveFails => LastEnds(s.calls, LocalError);
    case Receive => ReceiveEnds(wire, s);
    case _ =>
  }

  lemma ReceiveEnds(wire: Wire, s: State)
    requires CallsEnd(s) && Enabled(wire, s, Receive)
    ensures var s' := Do(wire, s, Receive);
            && |s'.conns| == |s.conns|
            && LocalErrors(s'.calls) == LocalErrors(s.calls) + if s'.current.None? then 1 else 0
  {
    match wire.unpackResponse(NextDown(s.conns[s.current.value]).m)
    case Some(r) => LastEnds(s.calls, FromServer(r));
    case None => LastEnds(s.calls, LocalError);
  }

  /** In every run, whatever the server sends: only the call in progress is without an outcome, a call that
      failed has dropped its connection, and connections are used again: there is at most one more of them
      than there were failed calls and disconnects. */
  lemma {:induction false} ClientHolds(wire: Wire, actions: seq<Action>)
    requires Execute(wire, START, actions).Some?
    ensures var s := Execute(wire, START, actions).value;
            && CallsEnd(s)
            && |s.conns| <= LocalErrors(s.calls) + Disconnects(actions) + if s.current.Some? then 1 else 0
  {
    if actions != [] {
      var before, a := actions[..|actions| - 1], actions[|actions| - 1];
      ClientHolds(wire, before);
      StepEndsCalls(wire, Execute(wire, START, before).value, a);
      StepKeepsConnections(wire, Execute(wire, START, before).value, a);
    }
  }

  /* ---------- The exception ---------- */

  /** The only connection after its only request was written, taken by the server, and answered. */
  function SentConn(request: Bytes): Conn
  {
    FRESH_CONN.(asked := [0], sent := [request])
  }

  function TakenConn(request: Bytes, h: Handled): Conn
  {
    SentConn(request).(upRead := 4 + |request| % WORD, replying := true, handled := [h])
  }

  function AnsweredConn(wire: Wire, request: Bytes, h: Handled): Conn
  {
    TakenConn(request, h).(replies := [wire.packResponse(h.response)], replying := false, serving := h.command.Some?)
  }

  function One(command: Command, c: Conn, stage: Stage): State
  {
    State([Call(command, InFlight)], [c], Some(0), stage)
  }

  lemma RequestMisread(request: Bytes)
    requires !Unambiguous(request)
    ensures var n := |request| % WORD; NextUp(SentConn(request)) == Message(request[..n], request[n..])
  {
    var c := SentConn(request);
    FramesOne(request);
    FrameThenRest(request, []);
    assert Up(c)[0..] == Frame(request) + [];
    assert request[|request| % WORD..] + [] == request[|request| % WORD..];
  }

  lemma ReplyRead(wire: Wire, request: Bytes, h: Handled)
    requires Sendable(wire.packResponse(h.response))
    ensures NextDown(AnsweredConn(wire, request, h)) == Message(wire.packResponse(h.response), [])
  {
    var c, q := AnsweredConn(wire, request, h), wire.packResponse(h.response);
    FramesOne(q);
    FrameThenRest(q, []);
    assert Down(c)[0..] == Frame(q) + [];
  }

  predicate StepsTo(wire: Wire, s: State, a: Action, s': State)
  {
    Enabled(wire, s, a) && Do(wire, s, a) == s'
  }

  lemma ClientAsks(wire: Wire, command: Command)
    ensures StepsTo(wire, START, Begin(command, true), One(command, FRESH_CONN, Sending))
    ensures StepsTo(wire, One(command, FRESH_CONN, Sending), Send,
                   One(command, SentConn(wire.packCommand(command)), Receiving))
  {
    var request, s1 := wire.packCommand(command), One(command, FRESH_CONN, Sending);
    var s2 := Do(wire, s1, Send);
    assert Do(wire, START, Begin(command, true)).calls == s1.calls;
    assert Do(wire, START, Begin(command, true)).conns == s1.conns;
    assert s2.conns[0].asked == [0] && s2.conns[0].sent == [request];
    assert s2.conns == [SentConn(request)];
  }

  lemma ServerMisreads(wire: Wire, command: Command, request: Bytes, h: Handled)
    requires !Unambiguous(request) && h.command == wire.unpackCommand(request[..|request| % WORD])
    ensures StepsTo(wire, One(command, SentConn(request), Receiving), ServerTakes(0, h.response),
                   One(command, TakenConn(request, h), Receiving))
  {
    RequestMisread(request);
    var s, a := One(command, SentConn(request), Receiving), ServerTakes(0, h.response);
    assert Do(wire, s, a).conns[0].handled == [h];
    assert Do(wire, s, a).conns == [TakenConn(request, h)];
  }

  lemma ServerAnswers(wire: Wire, command: Command, request: Bytes, h: Handled)
    requires Sendable(wire.packResponse(h.response))
    ensures StepsTo(wire, One(command, TakenConn(request, h), Receiving), ServerReplies(0),
                   One(command, AnsweredConn(wire, request, h), Receiving))
  {
    var s := One(command, TakenConn(request, h), Receiving);
    assert Do(wire, s, ServerReplies(0)).conns[0].replies == [wire.packResponse(h.response)];
    assert Do(wire, s, ServerReplies(0)).conns == [AnsweredConn(wire, request, h)];
  }

  lemma ClientTakes(wire: Wire, command: Command, request: Bytes, h: Handled, s: State)
    requires Lossless(wire) && Sendable(wire.packResponse(h.response))
    requires s == One(command, AnsweredConn(wire, request, h), Receiving)
    ensures Enabled(wire, s, Receive)
    ensures var s' := Do(wire, s, Receive);
            && s'.calls == [Call(command, FromServer(h.response))]
            && |s'.conns| == 1 && s'.conns[0].asked == [0] && s'.conns[0].handled == [h]
  {
    ReplyRead(wire, request, h);
  }

  /** No proper prefix of a packed command unpacks to that command: the encoding marks its own end. */
  ghost predicate SelfDelimiting(wire: Wire)
  {
    forall c: Command, n: nat :: n < |wire.packCommand(c)| ==> wire.unpackCommand(wire.packCommand(c)[..n]) != Some(c)
  }

  /** Only these commands are sent. */
  ghost predicate Sends(actions: seq<Action>, commands: set<Command>)
  {
    forall k :: 0 <= k < |actions| && actions[k].Begin? ==> actions[k].command in commands
  }

  lemma RunThen(wire: Wire, xs: seq<Action>, s: State, a: Action, s': State, commands: set<Command>)
      returns (ys: seq<Action>)
    requires Execute(wire, START, xs) == Some(s) && StepsTo(wire, s, a, s')
    requires Sends(xs, commands) && (a.Begin? ==> a.command in commands)
    ensures Sends(ys, commands) && Execute(wire, START, ys) == Some(s')
  {
    ys := xs + [a];
    assert ys[..|ys| - 1] == xs;
  }

  /** The run that the server ends up misreading. */
  lemma MisreadRun(wire: Wire, command: Command, response: Response) returns (xs: seq<Action>)
    requires Lossless(wire) && !Unambiguous(wire.packCommand(command)) && Sendable(wire.packResponse(response))
    ensures Sends(xs, {command}) && Execute(wire, START, xs).Some?
    ensures var s, request := Execute(wire, START, xs).value, wire.packCommand(command);
            && s.calls == [Call(command, FromServer(response))]
            && |s.conns| == 1 && s.conns[0].asked == [0]
            && s.conns[0].handled == [Handled(wire.unpackCommand(request[..|request| % WORD]), response)]
  {
    var request := wire.packCommand(command);
    var h := Handled(wire.unpackCommand(request[..|request| % WORD]), response);
    var s := One(command, AnsweredConn(wire, request, h), Receiving);
    ClientAsks(wire, command);
    ServerMisreads(wire, command, request, h);
    ServerAnswers(wire, command, request, h);
    ClientTakes(wire, command, request, h, s);
    var s1, s2 := One(command, FRESH_CONN, Sending), One(command, SentConn(request), Receiving);
    var s3 := One(command, TakenConn(request, h), Receiving);
    xs := RunThen(wire, [], START, Begin(command, true), s1, {command});
    xs := RunThen(wire, xs, s1, Send, s2, {command});
    xs := RunThen(wire, xs, s2, ServerTakes(0, response), s3, {command});
    xs := RunThen(wire, xs, s3, ServerReplies(0), s, {command});
    xs := RunThen(wire, xs, s, Receive, Do(wire, s, Receive), {command});
  }

  /** The condition on packed lengths is needed: any other command, sent over a fresh connection, can
      return a response that the server did not produce for it. */
  lemma AmbiguousRequestsMispair(wire: Wire, command: Command, response: Response) returns (xs: seq<Action>)
    requires Lossless(wire) && SelfDelimiting(wire)
    requires !Unambiguous(wire.packCommand(command)) && Sendable(wire.packResponse(response))
    ensures Sends(xs, {command}) && Execute(wire, START, xs).Some?
    ensures var s := Execute(wire, START, xs).value;
            s.calls == [Call(command, FromServer(response))] && !Answers(s, 0, response)
  {
    xs := MisreadRun(wire, command, response);
    var request := wire.packCommand(command);
    var n := |request| % WORD;
    assert wire.unpackCommand(request[..n]) != Some(command);
    NotAnswered(Execute(wire, START, xs).value, Handled(wire.unpackCommand(request[..n]), response));
  }

  lemma NotAnswered(s: State, h: Handled)
    requires |s.calls| == 1 && |s.conns| == 1 && s.conns[0].asked == [0] && s.conns[0].handled == [h]
    requires h.command != Some(s.calls[0].command)
    ensures !Answers(s, 0, h.response)
  {
  }

  /** If call `i` returned a server response, the server produced it for that call. */
  ghost predicate Paired(wire: Wire, actions: seq<Action>, i: nat)
  {
    var r := Execute(wire, START, actions);
    r.Some? && i < |r.value.calls| && r.value.calls[i].outcome.FromServer? ==>
      Answers(r.value, i, r.value.calls[i].outcome.response)
  }

  ghost predicate AlwaysPaired(wire: Wire, commands: set<Command>)
  {
    forall actions: seq<Action>, i: nat :: Sends(actions, commands) ==> Paired(wire, actions, i)
  }

  /** Request/response pairing, exactly: every run that sends these commands pairs responses with calls if
      and only if each of them packs to a length that survives its header or is refused by it. */
  lemma PairingExactly(wire: Wire, commands: set<Command>, response: Response)
    requires Lossless(wire) && SelfDelimiting(wire) && Sendable(wire.packResponse(response))
    ensures AlwaysPaired(wire, commands) <==> forall c :: c in commands ==> Unambiguous(wire.packCommand(c))
  {
    if forall c :: c in commands ==> Unambiguous(wire.packCommand(c)) {
      forall actions: seq<Action>, i: nat | Sends(actions, commands) ensures Paired(wire, actions, i) {
        RunsStayRight(wire, actions);
      }
    }
    forall c | c in commands && !Unambiguous(wire.packCommand(c)) ensures !AlwaysPaired(wire, commands) {
      var xs := AmbiguousRequestsMispair(wire, c, response);
      assert Sends(xs, commands);
      assert !Paired(wire, xs, 0);
    }
  }
}
