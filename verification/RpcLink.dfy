/** The whole service link: calls queue at the client's task, which takes them one at a time, connecting
    when it holds no connection and keeping the connection afterwards only if it is persistent. */
module RpcLink {
  import opened Wrappers
  import opened Bytes
  import opened Rpc

  datatype Client = Idle | Calling(request: bytes, at: nat, phase: Phase)

  /** A finished call; `slot` counts the calls before it on the same connection. */
  datatype Done = Done(request: bytes, at: Option<nat>, slot: nat, answer: Answer)

  datatype State = State(
    persistent: bool,
    queue: seq<bytes>,
    client: Client,
    kept: Option<nat>,             // `connection_state`
    connections: seq<Connection>,
    done: seq<Done>
  )

  datatype Action =
    | Request(data: bytes)
    | Reuse
    | Connect
    | ConnectFail
    | Write
    | ReadStatus
    | ReadBody
    | ReadEnd
    | Break(sent: nat)
    | ServerServe(i: nat, outcome: Outcome)
    | ServerStatus(i: nat)
    | ServerBody(i: nat)
    | ServerStop(i: nat, sent: nat)

  function Init(persistent: bool): State {
    State(persistent, [], Idle, None, [], [])
  }

  predicate ClientOk(s: State) {
    s.client.Calling? ==> s.client.at < |s.connections|
  }

  function Used(s: State): Connection
    requires s.client.Calling? && ClientOk(s)
  {
    s.connections[s.client.at]
  }

  predicate Enabled(s: State, a: Action) {
    && ClientOk(s)
    && match a
       case Request(_) => true
       case Reuse => s.client == Idle && s.queue != [] && s.kept.Some? && s.kept.value < |s.connections|
       case Connect => s.client == Idle && s.queue != [] && s.kept == None
       case ConnectFail => s.client == Idle && s.queue != [] && s.kept == None
       case Write => s.client.Calling? && s.client.phase == Sending && !Used(s).broken
       case ReadStatus => s.client.Calling? && s.client.phase == AwaitStatus && CanRead(Used(s), s.client.phase)
       case ReadBody => s.client.Calling? && s.client.phase.AwaitBody? && CanRead(Used(s), s.client.phase)
       case ReadEnd => s.client.Calling? && AtEnd(Used(s), s.client.phase)
       case Break(k) => s.client.Calling? && (if s.client.phase == Sending then k <= |s.client.request| else k == 0)
       case ServerServe(i, _) =>
         i < |s.connections| && s.connections[i].server == Reading && ReadFrame(s.connections[i].toServer).Frame?
       case ServerStatus(i) => i < |s.connections| && s.connections[i].server.AtStatus?
       case ServerBody(i) => i < |s.connections| && s.connections[i].server.AtBody?
       case ServerStop(i, k) => i < |s.connections| && CanStop(s.connections[i], k)
  }

  function With(s: State, i: nat, c: Connection): State
    requires i < |s.connections|
  {
    s.(connections := s.connections[i := c])
  }

  /** The call ends: its caller is answered, and a persistent link keeps the connection whatever the answer. */
  function Finish(s: State, c: Connection, answer: Answer): State
    requires s.client.Calling? && ClientOk(s)
  {
    With(s, s.client.at, Replied(c, answer)).(
      client := Idle,
      kept := if s.persistent then Some(s.client.at) else None,
      done := s.done + [Done(s.client.request, Some(s.client.at), |c.replies|, answer)])
  }

  function Apply(s: State, a: Action): State
    requires Enabled(s, a)
  {
    match a
    case Request(d) => s.(queue := s.queue + [d])
    case Reuse =>
      var at := s.kept.value;
      With(s, at, s.connections[at].(calls := s.connections[at].calls + [s.queue[0]])).(
        client := Calling(s.queue[0], at, Sending), queue := s.queue[1..], kept := None)
    case Connect =>
      s.(client := Calling(s.queue[0], |s.connections|, Sending), queue := s.queue[1..],
         connections := s.connections + [Fresh(s.queue[0])])
    case ConnectFail =>
      s.(queue := s.queue[1..], done := s.done + [Done(s.queue[0], None, 0, NotConnected)])
    case Write =>
      With(s, s.client.at, Used(s).(toServer := Used(s).toServer + s.client.request)).(
        client := s.client.(phase := AwaitStatus))
    case ReadStatus =>
      var status, c := Used(s).toClient[0], Used(s).(toClient := Used(s).toClient[1..]);
      if status == RPC_SUCCESS || status == RPC_FAILURE then
        With(s, s.client.at, c).(client := s.client.(phase := AwaitBody(status)))
      else
        Finish(s, c, InvalidStatusCode(status))
    case ReadBody =>
      var read := ReadFrame(Used(s).toClient);
      Finish(s, Used(s).(toClient := read.rest), AnswerFrom(s.client.phase.status, read.frame))
    case ReadEnd => Finish(s, Used(s).(toClient := []), Io)
    case Break(k) =>
      Finish(s, Used(s).(broken := true, toServer := Used(s).toServer + s.client.request[..k]), Io)
    case ServerServe(i, o) => With(s, i, Serve(s.connections[i], o))
    case ServerStatus(i) => With(s, i, WriteStatus(s.connections[i]))
    case ServerBody(i) => With(s, i, WriteBody(s.connections[i], s.persistent))
    case ServerStop(i, k) => With(s, i, Stop(s.connections[i], k))
  }

  predicate IsRun(s: State, acts: seq<Action>)
    decreases |acts|
  {
    acts == [] || (Enabled(s, acts[0]) && IsRun(Apply(s, acts[0]), acts[1..]))
  }

  function After(s: State, acts: seq<Action>): State
    requires IsRun(s, acts)
    decreases |acts|
  {
    if acts == [] then s else After(Apply(s, acts[0]), acts[1..])
  }

  /** Requests are frames and the callback's outcomes are well framed. */
  predicate Framed(a: Action) {
    && (a.Request? ==> IsFrame(a.data))
    && (a.ServerServe? ==> WellFramed(a.outcome))
  }

  // ---------------------------------------------------------------- The invariant

  function PhaseAt(s: State, i: nat): Option<Phase> {
    if s.client.Calling? && s.client.at == i then Some(s.client.phase) else None
  }

  predicate DoneOk(d: Done, connections: seq<Connection>) {
    match d.at
    case None => d.answer == NotConnected
    case Some(i) =>
      && i < |connections| && d.slot < |connections[i].replies| <= |connections[i].calls|
      && connections[i].calls[d.slot] == d.request && connections[i].replies[d.slot] == d.answer
  }

  /** Every finished call has a slot of its own, in the order of the calls. */
  predicate Slotted(done: seq<Done>, connections: seq<Connection>) {
    && (forall i | 0 <= i < |done| :: DoneOk(done[i], connections))
    && (forall i, j | 0 <= i < j < |done| && done[i].at.Some? && done[i].at == done[j].at :: done[i].slot < done[j].slot)
  }

  predicate Linked(s: State) {
    && ClientOk(s)
    && (s.client.Calling? ==>
          && s.kept == None
          && |Used(s).calls| == |Used(s).replies| + 1 && Used(s).calls[|Used(s).replies|] == s.client.request)
    && (s.kept.Some? ==> s.persistent && s.kept.value < |s.connections|)
    && (s.persistent ==> |s.connections| <= 1 && (s.client == Idle && |s.connections| == 1 ==> s.kept == Some(0)))
    && (forall k | 0 <= k < |s.queue| :: IsFrame(s.queue[k]))
  }

  predicate ConnectionsOk(s: State) {
    forall i | 0 <= i < |s.connections| :: ConnectionOk(s.connections[i], PhaseAt(s, i))
  }

  predicate Inv(s: State) {
    Linked(s) && ConnectionsOk(s) && Slotted(s.done, s.connections)
  }

  lemma SlottedWith(done: seq<Done>, connections: seq<Connection>, i: nat, c: Connection)
    requires Slotted(done, connections) && i < |connections| && |c.replies| <= |c.calls|
    requires connections[i].calls <= c.calls && connections[i].replies <= c.replies
    ensures Slotted(done, connections[i := c])
  {
    forall k | 0 <= k < |done| ensures DoneOk(done[k], connections[i := c]) {
      assert DoneOk(done[k], connections);
    }
  }

  lemma SlottedConnect(done: seq<Done>, connections: seq<Connection>, c: Connection)
    requires Slotted(done, connections)
    ensures Slotted(done, connections + [c])
  {
    forall k | 0 <= k < |done| ensures DoneOk(done[k], connections + [c]) {
      assert DoneOk(done[k], connections);
    }
  }

  /** A step of one connection that finishes no call. */
  lemma StepKeeps(s: State, s': State, i: nat, c: Connection)
    requires Inv(s) && i < |s.connections| && Linked(s')
    requires s' == With(s, i, c).(client := s'.client, queue := s'.queue, kept := s'.kept)
    requires ConnectionOk(c, PhaseAt(s', i))
    requires forall j | 0 <= j < |s.connections| && j != i :: PhaseAt(s', j) == PhaseAt(s, j)
    requires s.connections[i].calls <= c.calls && c.replies == s.connections[i].replies
    ensures Inv(s')
  {
    hide ConnectionOk, Slotted;
    assert |c.replies| <= |c.calls| by { CallsAndReplies(c, PhaseAt(s', i)); }
    SlottedWith(s.done, s.connections, i, c);
  }

  lemma CallsAndReplies(c: Connection, phase: Option<Phase>)
    requires ConnectionOk(c, phase)
    ensures |c.calls| == |c.replies| + (if phase.Some? then 1 else 0)
  {
  }

  lemma FinishKeeps(s: State, c: Connection, answer: Answer)
    requires Inv(s) && s.client.Calling?
    requires ConnectionOk(Replied(c, answer), None)
    requires c.calls == Used(s).calls && c.replies == Used(s).replies
    ensures Inv(Finish(s, c, answer))
  {
    hide ConnectionOk;
    var s', at, d := Finish(s, c, answer), s.client.at, Done(s.client.request, Some(s.client.at), |c.replies|, answer);
    SlottedWith(s.done, s.connections, at, Replied(c, answer));
    assert DoneOk(d, s'.connections);
    forall i | 0 <= i < |s.done| && s.done[i].at == Some(at) ensures s.done[i].slot < d.slot {
      assert DoneOk(s.done[i], s.connections);
    }
    assert forall j | 0 <= j < |s.connections| && j != at :: PhaseAt(s', j) == PhaseAt(s, j) == None;
  }

  lemma ServerKeeps(s: State, a: Action)
    requires Inv(s) && Enabled(s, a) && Framed(a)
    requires a.ServerServe? || a.ServerStatus? || a.ServerBody? || a.ServerStop?
    ensures Inv(Apply(s, a))
  {
    hide ConnectionOk, Slotted, ReadFrame, WellFramed, CanStop;
    var s', c, p := Apply(s, a), s.connections[a.i], PhaseAt(s, a.i);
    match a {
      case ServerServe(i, o) => ServeKeeps(c, p, o);
      case ServerStatus(i) => WriteStatusKeeps(c, p);
      case ServerBody(i) => WriteBodyKeeps(c, p, s.persistent);
      case ServerStop(i, k) => StopKeeps(c, p, k);
    }
    StepKeeps(s, s', a.i, s'.connections[a.i]);
  }

  lemma StartsKeep(s: State, a: Action)
    requires Inv(s) && Enabled(s, a)
    requires a.Reuse? || a.Connect? || a.ConnectFail?
    ensures Inv(Apply(s, a))
  {
    hide ConnectionOk, IsFrame;
    var s' := Apply(s, a);
    match a {
      case Reuse =>
        StartKeeps(s.connections[s.kept.value], s.queue[0]);
        CallsAndReplies(s.connections[s.kept.value], None);
        StepKeeps(s, s', s.kept.value, s'.connections[s.kept.value]);
      case Connect =>
        assert ConnectionOk(Fresh(s.queue[0]), Some(Sending)) by { FreshOk(s.queue[0]); }
        assert forall j | 0 <= j < |s.connections| :: PhaseAt(s', j) == PhaseAt(s, j) == None;
        SlottedConnect(s.done, s.connections, Fresh(s.queue[0]));
      case ConnectFail =>
        assert forall j | 0 <= j < |s.connections| :: PhaseAt(s', j) == PhaseAt(s, j);
    }
  }

  lemma FreshOk(request: bytes)
    requires IsFrame(request)
    ensures ConnectionOk(Fresh(request), Some(Sending))
  {
    hide IsFrame;
  }

  lemma ClientKeeps(s: State, a: Action)
    requires Inv(s) && Enabled(s, a)
    requires a.Write? || a.ReadStatus? || a.ReadBody? || a.ReadEnd? || a.Break?
    ensures Inv(Apply(s, a))
  {
    hide ConnectionOk, Slotted, CanRead, AtEnd, AnswerFrom, IsFrame;
    var s', at, c := Apply(s, a), s.client.at, Used(s);
    assert ConnectionOk(c, Some(s.client.phase));
    match a {
      case Write =>
        WriteKeeps(c);
        StepKeeps(s, s', at, s'.connections[at]);
      case ReadStatus =>
        ReadStatusKeeps(c);
        StepKeeps(s, s', at, s'.connections[at]);
      case ReadBody =>
        CanReadBody(c, s.client.phase);
        ReadBodyKeeps(c, s.client.phase.status);
        FinishKeeps(s, c.(toClient := ReadFrame(c.toClient).rest), s'.done[|s.done|].answer);
      case ReadEnd =>
        EndKeeps(c, s.client.phase);
        FinishKeeps(s, c.(toClient := []), Io);
      case Break(k) =>
        BreakKeeps(c, s.client.phase, s.client.request[..k]);
        FinishKeeps(s, c.(broken := true, toServer := c.toServer + s.client.request[..k]), Io);
    }
  }

  lemma CanReadBody(c: Connection, phase: Phase)
    requires phase.AwaitBody? && CanRead(c, phase)
    ensures ReadFrame(c.toClient).Frame?
  {
  }

  lemma InvStep(s: State, a: Action)
    requires Inv(s) && Enabled(s, a) && Framed(a)
    ensures Inv(Apply(s, a))
  {
    match a
    case Request(d) =>
      hide ConnectionOk, Slotted;
      assert forall j | 0 <= j < |s.connections| :: PhaseAt(Apply(s, a), j) == PhaseAt(s, j);
    case Reuse | Connect | ConnectFail =>
      hide Inv;
      StartsKeep(s, a);
    case Write | ReadStatus | ReadBody | ReadEnd | Break(_) =>
      hide Inv;
      ClientKeeps(s, a);
    case ServerServe(_, _) | ServerStatus(_) | ServerBody(_) | ServerStop(_, _) =>
      hide Inv;
      ServerKeeps(s, a);
  }

  predicate FramedRun(acts: seq<Action>) {
    forall k | 0 <= k < |acts| :: Framed(acts[k])
  }

  lemma {:induction false} RunInv(s: State, acts: seq<Action>)
    requires Inv(s) && IsRun(s, acts) && FramedRun(acts)
    ensures Inv(After(s, acts))
    decreases |acts|
  {
    hide Inv, Apply, Enabled, Framed;
    if acts != [] {
      InvStep(s, acts[0]);
      RunInv(Apply(s, acts[0]), acts[1..]);
    }
  }

  // ---------------------------------------------------------------- Every call, every failure

  /** The requests made, in order. */
  function Requests(acts: seq<Action>): seq<bytes> {
    if acts == [] then []
    else (if acts[0].Request? then [acts[0].data] else []) + Requests(acts[1..])
  }

  function RequestsOf(done: seq<Done>): seq<bytes> {
    seq(|done|, i requires 0 <= i < |done| => done[i].request)
  }

  /** The requests taken up, in the order they were: answered, being made, waiting. */
  function Pending(s: State): seq<bytes> {
    RequestsOf(s.done) + (if s.client.Calling? then [s.client.request] else []) + s.queue
  }

  lemma PendingFinish(s: State, c: Connection, answer: Answer)
    requires s.client.Calling? && ClientOk(s)
    ensures Pending(Finish(s, c, answer)) == Pending(s)
  {
    var s' := Finish(s, c, answer);
    assert RequestsOf(s'.done) == RequestsOf(s.done) + [s.client.request];
  }

  lemma PendingStart(s: State, a: Action)
    requires Enabled(s, a) && (a.Reuse? || a.Connect? || a.ConnectFail?)
    ensures Pending(Apply(s, a)) == Pending(s)
  {
    var s' := Apply(s, a);
    assert s.queue == [s.queue[0]] + s.queue[1..];
    if a.ConnectFail? {
      assert RequestsOf(s'.done) == RequestsOf(s.done) + [s.queue[0]];
    }
  }

  lemma PendingStep(s: State, a: Action)
    requires Enabled(s, a)
    ensures Pending(Apply(s, a)) == Pending(s) + (if a.Request? then [a.data] else [])
  {
    hide AtEnd, CanStop, IsFrame, RequestsOf, Finish, AnswerFrom;
    match a
    case Request(d) =>
    case Reuse | Connect | ConnectFail => PendingStart(s, a);
    case ReadStatus =>
      var c := Used(s);
      PendingFinish(s, c.(toClient := c.toClient[1..]), InvalidStatusCode(c.toClient[0]));
    case ReadBody =>
      var read := ReadFrame(Used(s).toClient);
      PendingFinish(s, Used(s).(toClient := read.rest), AnswerFrom(s.client.phase.status, read.frame));
    case ReadEnd => PendingFinish(s, Used(s).(toClient := []), Io);
    case Break(k) =>
      PendingFinish(s, Used(s).(broken := true, toServer := Used(s).toServer + s.client.request[..k]), Io);
    case Write | ServerServe(_, _) | ServerStatus(_) | ServerBody(_) | ServerStop(_, _) =>
  }

  lemma {:induction false} InOrder(s: State, acts: seq<Action>)
    requires IsRun(s, acts)
    ensures Pending(After(s, acts)) == Pending(s) + Requests(acts)
    decreases |acts|
  {
    hide Pending, Apply, Enabled;
    if acts != [] {
      PendingStep(s, acts[0]);
      InOrder(Apply(s, acts[0]), acts[1..]);
    }
  }

  lemma DoneInOrder(persistent: bool, acts: seq<Action>, i: nat)
    requires IsRun(Init(persistent), acts) && i < |After(Init(persistent), acts).done|
    ensures i < |Requests(acts)| && After(Init(persistent), acts).done[i].request == Requests(acts)[i]
  {
    InOrder(Init(persistent), acts);
    var s := After(Init(persistent), acts);
    assert Pending(Init(persistent)) == [];
    assert Pending(s)[i] == RequestsOf(s.done)[i];
  }

  lemma StartInv(persistent: bool)
    ensures Inv(Init(persistent))
  {
  }

  /** In every run in which requests are frames and outcomes well framed, whatever fails and whenever:
      calls end in the order they were made, and each ends without a connection, with an I/O error, or with
      the callback's outcome on that very request. `KeptOutOfStep` has a run with an unframed outcome. */
  lemma AnswersAreOutcomes(persistent: bool, acts: seq<Action>, i: nat)
    requires IsRun(Init(persistent), acts) && FramedRun(acts)
    requires i < |After(Init(persistent), acts).done|
    ensures var s := After(Init(persistent), acts);
            var d := s.done[i];
            && i < |Requests(acts)| && d.request == Requests(acts)[i]
            && match d.at
               case None => d.answer == NotConnected
               case Some(at) =>
                 && at < |s.connections|
                 && (d.answer != Io ==>
                       var h := s.connections[at].handled;
                       d.slot < |h| && h[d.slot].request == d.request && d.answer == AnswerOf(h[d.slot].outcome))
  {
    hide Framed, AnswerOf;
    StartInv(persistent);
    RunInv(Init(persistent), acts);
    DoneInOrder(persistent, acts, i);
    var s := After(Init(persistent), acts);
    var d := s.done[i];
    assert DoneOk(d, s.connections);
    if d.at.Some? {
      var at := d.at.value;
      var c := s.connections[at];
      assert ConnectionOk(c, PhaseAt(s, at));
      assert c.replies[d.slot] == Io || Answered(c, d.slot);
    }
  }

  /** No outcome answers two calls. */
  lemma OutcomesAnswerOnce(persistent: bool, acts: seq<Action>, i: nat, j: nat)
    requires IsRun(Init(persistent), acts) && FramedRun(acts)
    requires i < j < |After(Init(persistent), acts).done|
    ensures var done := After(Init(persistent), acts).done;
            done[i].at.Some? && done[i].at == done[j].at ==> done[i].slot < done[j].slot
  {
    hide Framed;
    StartInv(persistent);
    RunInv(Init(persistent), acts);
  }

  // ---------------------------------------------------------------- When nothing fails

  /** The server's end finishes its reply before it closes. */
  predicate SmoothConnection(c: Connection, phase: Option<Phase>, persistent: bool) {
    && !c.broken && (forall k | 0 <= k < |c.replies| :: c.replies[k] != Io)
    && (c.server == Closed ==>
          && !persistent && phase != Some(Sending) && c.toServer == [] && |c.handled| == |c.calls|
          && (phase.Some? ==>
                |c.replies| < |c.handled| && c.toClient == Remaining(c.handled[|c.replies|].outcome, phase.value)))
    && (!persistent && c.server == Reading ==> c.handled == [])
  }

  /** A persistent link has one connection for all its calls; any other has one for each. */
  predicate Placed(s: State) {
    if s.persistent then
      && |s.done| == (if s.connections == [] then 0 else |s.connections[0].replies|)
      && (forall i | 0 <= i < |s.done| :: s.done[i].at == Some(0) && s.done[i].slot == i)
    else
      && |s.connections| == |s.done| + (if s.client.Calling? then 1 else 0)
      && (forall i | 0 <= i < |s.connections| :: |s.connections[i].calls| == 1)
      && (forall i | 0 <= i < |s.done| :: s.done[i].at == Some(i) && s.done[i].slot == 0)
      && (s.client.Calling? ==> s.client.at == |s.done|)
  }

  predicate AllSmooth(s: State) {
    forall i | 0 <= i < |s.connections| :: SmoothConnection(s.connections[i], PhaseAt(s, i), s.persistent)
  }

  predicate Smooth(s: State) {
    Placed(s) && AllSmooth(s)
  }

  predicate Steady(a: Action) {
    Framed(a) && !a.Break? && !a.ServerStop? && !a.ConnectFail?
  }

  lemma SmoothServer(c: Connection, phase: Option<Phase>, persistent: bool)
    requires ConnectionOk(c, phase) && SmoothConnection(c, phase, persistent)
    ensures forall o | c.server == Reading && ReadFrame(c.toServer).Frame? :: SmoothConnection(Serve(c, o), phase, persistent)
    ensures c.server.AtStatus? ==> SmoothConnection(WriteStatus(c), phase, persistent)
    ensures c.server.AtBody? ==> SmoothConnection(WriteBody(c, persistent), phase, persistent)
  {
    hide IsFrame, WellFramed, PayloadOf, ReplyOf, AnswerOf, ReadFrame;
  }

  /** A client that waits on a connection that has not failed reads everything before the end. */
  lemma SmoothRead(c: Connection, phase: Phase, persistent: bool)
    requires ConnectionOk(c, Some(phase)) && SmoothConnection(c, Some(phase), persistent)
    ensures !AtEnd(c, phase)
    ensures phase == AwaitStatus && CanRead(c, phase) ==>
              SmoothConnection(c.(toClient := c.toClient[1..]), Some(AwaitBody(c.toClient[0])), persistent)
    ensures phase.AwaitBody? && CanRead(c, phase) ==>
              var read := ReadFrame(c.toClient);
              SmoothConnection(Replied(c.(toClient := read.rest), AnswerFrom(phase.status, read.frame)), None, persistent)
  {
    hide WellFramed, PayloadOf, StatusOf, AnswerOf, AnswerFrom;
    if phase != Sending && |c.replies| < |c.handled| {
      var o := c.handled[|c.replies|].outcome;
      PayloadExact(o);
      assert ReplyOf(o)[1..] == PayloadOf(o);
      ReadFrameExact(PayloadOf(o), PayloadOf(o), []);
      assert PayloadOf(o) + [] == PayloadOf(o);
      if phase.AwaitBody? && CanRead(c, phase) {
        ReadBodyKeeps(c, phase.status);
        assert c.toClient <= PayloadOf(o);
        PrefixFrame(c.toClient, PayloadOf(o));
        assert AnswerOf(o) != Io by { AnswersAreNotIo(o); }
      }
    }
  }

  lemma AnswersAreNotIo(o: Outcome)
    ensures AnswerOf(o) != Io
  {
  }

  lemma PlacedStep(s: State, a: Action)
    requires Linked(s) && Placed(s) && Enabled(s, a) && Steady(a)
    ensures Placed(Apply(s, a))
  {
    hide CanRead, AtEnd, CanStop, ReadFrame, IsFrame, Framed, Unwritten, PayloadOf;
  }

  lemma SmoothStep(s: State, a: Action)
    requires Inv(s) && AllSmooth(s) && Enabled(s, a) && Steady(a)
    ensures AllSmooth(Apply(s, a))
  {
    hide Framed, SmoothConnection, ConnectionOk, CanRead, AtEnd, CanStop, ReadFrame, IsFrame, Slotted, AnswerFrom;
    var s' := Apply(s, a);
    forall i | 0 <= i < |s'.connections| ensures SmoothConnection(s'.connections[i], PhaseAt(s', i), s.persistent) {
      if i < |s.connections| && s'.connections[i] == s.connections[i] && PhaseAt(s', i) == PhaseAt(s, i) {
        assert SmoothConnection(s.connections[i], PhaseAt(s, i), s.persistent);
      } else {
        SmoothChanged(s, a, i);
      }
    }
  }

  lemma SmoothStart(c: Connection, request: bytes)
    requires ConnectionOk(c, None) && SmoothConnection(c, None, true)
    ensures SmoothConnection(c.(calls := c.calls + [request]), Some(Sending), true)
  {
  }

  lemma SmoothFresh(request: bytes, persistent: bool)
    ensures SmoothConnection(Fresh(request), Some(Sending), persistent)
  {
  }

  lemma SmoothWrite(c: Connection, request: bytes, persistent: bool)
    requires SmoothConnection(c, Some(Sending), persistent)
    ensures SmoothConnection(c.(toServer := c.toServer + request), Some(AwaitStatus), persistent)
  {
  }

  lemma SmoothChanged(s: State, a: Action, i: nat)
    requires Inv(s) && AllSmooth(s) && Enabled(s, a) && Steady(a) && i < |Apply(s, a).connections|
    requires i < |s.connections| ==>
               Apply(s, a).connections[i] != s.connections[i] || PhaseAt(Apply(s, a), i) != PhaseAt(s, i)
    ensures SmoothConnection(Apply(s, a).connections[i], PhaseAt(Apply(s, a), i), s.persistent)
  {
    hide Framed, SmoothConnection, ConnectionOk, CanStop, IsFrame, Slotted, AnswerFrom, AtEnd, ReadFrame, PayloadOf, StatusOf,
         WellFramed;
    if a.ReadEnd? {
      var c := s.connections[s.client.at];
      assert ConnectionOk(c, PhaseAt(s, s.client.at)) && SmoothConnection(c, PhaseAt(s, s.client.at), s.persistent);
      SmoothRead(c, s.client.phase, s.persistent);
      assert false;
    } else if a.Connect? {
      SmoothFresh(s.queue[0], s.persistent);
    } else {
      var c := s.connections[i];
      assert ConnectionOk(c, PhaseAt(s, i)) && SmoothConnection(c, PhaseAt(s, i), s.persistent);
      match a
      case Reuse => SmoothStart(c, s.queue[0]);
      case Write => SmoothWrite(c, s.client.request, s.persistent);
      case ReadStatus =>
        ReadStatusKeeps(c);
        SmoothRead(c, AwaitStatus, s.persistent);
      case ReadBody => SmoothRead(c, s.client.phase, s.persistent);
      case ServerServe(_, _) | ServerStatus(_) | ServerBody(_) => SmoothServer(c, PhaseAt(s, i), s.persistent);
      case _ =>
    }
  }

  predicate SteadyRun(acts: seq<Action>) {
    forall k | 0 <= k < |acts| :: Steady(acts[k])
  }

  lemma {:induction false} RunSmooth(s: State, acts: seq<Action>)
    requires Inv(s) && Smooth(s) && IsRun(s, acts) && SteadyRun(acts)
    ensures Inv(After(s, acts)) && Smooth(After(s, acts)) && After(s, acts).persistent == s.persistent
    decreases |acts|
  {
    hide Linked, ConnectionsOk, Slotted, Placed, AllSmooth, Framed, Enabled;
    if acts != [] {
      assert Steady(acts[0]);
      InvStep(s, acts[0]);
      PlacedStep(s, acts[0]);
      SmoothStep(s, acts[0]);
      RunSmooth(Apply(s, acts[0]), acts[1..]);
    }
  }

  /** Stream alignment: on a persistent link where nothing fails, any number of calls shares one
      connection; the i-th result is the callback's outcome on the i-th request, and between calls both
      streams are empty and nothing was handled that was not answered. */
  lemma PersistentAlignment(acts: seq<Action>)
    requires IsRun(Init(true), acts) && SteadyRun(acts)
    ensures var s := After(Init(true), acts);
            && |s.connections| <= 1 && (s.connections == [] ==> s.done == [])
            && (s.connections != [] ==>
                  var c := s.connections[0];
                  && |s.done| <= |c.handled| && |s.done| <= |Requests(acts)|
                  && (forall i | 0 <= i < |s.done| ::
                        && c.handled[i].request == s.done[i].request == Requests(acts)[i]
                        && s.done[i].answer == AnswerOf(c.handled[i].outcome))
                  && (s.client == Idle ==>
                        c.toServer == [] && c.toClient == [] && c.server == Reading && |c.handled| == |s.done|))
  {
    hide Framed, AnswerOf, IsFrame;
    StartInv(true);
    RunSmooth(Init(true), acts);
    var s := After(Init(true), acts);
    forall i | 0 <= i < |s.done| ensures i < |Requests(acts)| && s.done[i].request == Requests(acts)[i] {
      DoneInOrder(true, acts, i);
    }
    if s.connections != [] {
      var c := s.connections[0];
      assert ConnectionOk(c, PhaseAt(s, 0)) && SmoothConnection(c, PhaseAt(s, 0), true);
      forall i | 0 <= i < |s.done|
        ensures && i < |c.handled| && c.handled[i].request == s.done[i].request
                && s.done[i].answer == AnswerOf(c.handled[i].outcome)
      {
        assert DoneOk(s.done[i], s.connections);
        assert c.replies[i] != Io;
        assert Answered(c, i);
      }
      if |s.done| > 0 {
        DoneInOrder(true, acts, |s.done| - 1);
      }
    }
  }

  /** Without persistence, and with nothing failing, every call has a connection of its own that serves
      exactly one exchange and is then closed by the server with nothing left on either stream. */
  lemma OneExchangeEach(acts: seq<Action>, i: nat)
    requires IsRun(Init(false), acts) && SteadyRun(acts)
    requires i < |After(Init(false), acts).done|
    ensures var s := After(Init(false), acts);
            && i < |s.connections| && i < |Requests(acts)|
            && var c := s.connections[i];
               && c.toServer == [] && c.toClient == [] && c.server == Closed && |c.handled| == 1
               && c.handled[0].request == Requests(acts)[i]
               && s.done[i].answer == AnswerOf(c.handled[0].outcome)
    ensures var s := After(Init(false), acts); s.client == Idle ==> |s.connections| == |s.done|
  {
    hide Framed, AnswerOf, IsFrame;
    StartInv(false);
    RunSmooth(Init(false), acts);
    DoneInOrder(false, acts, i);
    var s := After(Init(false), acts);
    var c := s.connections[i];
    assert PhaseAt(s, i) == None;
    assert ConnectionOk(c, None) && SmoothConnection(c, None, false);
    assert DoneOk(s.done[i], s.connections);
    assert c.replies[0] != Io;
    assert Answered(c, 0);
  }

  // ---------------------------------------------------------------- When messages are not framed

  /** One exchange goes as it should: the server takes the request, whole and no more, and what it writes
      is read as the outcome, whole and no more. */
  predicate Aligned(c: Connection, request: bytes, o: Outcome) {
    var sent := c.(toServer := c.toServer + request);
    && ReadFrame(sent.toServer).Frame?
    && var replied := WriteBody(WriteStatus(Serve(sent, o)), true);
       && replied.handled == c.handled + [Handled(request, o)] && replied.server == Reading && replied.toServer == []
       && replied.toClient != [] && replied.toClient[0] == StatusOf(o)
       && var last, phase := replied.(toClient := replied.toClient[1..]), AwaitBody(StatusOf(o));
          && CanRead(last, phase)
          && ReadFrame(last.toClient).rest == []
          && AnswerFrom(StatusOf(o), ReadFrame(last.toClient).frame) == AnswerOf(o)
  }

  /** A frame is read whole exactly if it is one. */
  lemma WholeFrame(b: bytes)
    ensures ReadFrame(b).Frame? && ReadFrame(b).rest == [] <==> IsFrame(b)
    ensures IsFrame(b) ==> ReadFrame(b) == Frame(b, [])
  {
    hide IsFrame, ReadFrame;
    assert b + [] == b;
    ReadFrameExact(b, b, []);
    if ReadFrame(b).Frame? && ReadFrame(b).rest == [] {
      var f := ReadFrame(b).frame;
      ReadFrameExact(b, f, []);
      assert b == f + [] == f;
    }
  }

  /** For any request and any outcome: an exchange on a connection with both streams empty and the server
      reading goes as it should, and leaves both streams empty, exactly if the request is one whole frame
      and the outcome is well framed. */
  lemma ExchangeExact(c: Connection, request: bytes, o: Outcome)
    requires !c.broken && c.server == Reading && c.toServer == [] && c.toClient == []
    ensures Aligned(c, request, o) <==> IsFrame(request) && WellFramed(o)
  {
    hide WellFramed, PayloadOf, StatusOf, AnswerFrom, AnswerOf, IsFrame, ReadFrame;
    var p := PayloadOf(o);
    assert c.toServer + request == request;
    WholeFrame(request);
    PayloadExact(o);
    WholeFrame(p);
    assert c.toClient + [StatusOf(o)] == [StatusOf(o)] && ([StatusOf(o)] + p)[1..] == p;
  }

  lemma {:induction false} Extend(s: State, acts: seq<Action>, a: Action)
    requires IsRun(s, acts) && Enabled(After(s, acts), a)
    ensures IsRun(s, acts + [a]) && After(s, acts + [a]) == Apply(After(s, acts), a)
    decreases |acts|
  {
    hide Apply, Enabled;
    if acts == [] {
      assert [a][1..] == [];
    } else {
      Extend(Apply(s, acts[0]), acts[1..], a);
      assert (acts + [a])[1..] == acts[1..] + [a];
    }
  }

  /** The server's three steps for the request at the front of its stream. */
  lemma ServerAnswers(s0: State, acts: seq<Action>, request: bytes, rest: bytes, o: Outcome) returns (more: seq<Action>)
    requires IsRun(s0, acts) && IsFrame(request)
    requires var s := After(s0, acts);
             ClientOk(s) && s.persistent && |s.connections| == 1 && s.connections[0].server == Reading
             && s.connections[0].toServer == request + rest
    ensures IsRun(s0, more) && acts <= more && forall k | |acts| <= k < |more| :: !IsFailure(more[k])
    ensures forall k | |acts| <= k < |more| && more[k].ServerServe? :: more[k].outcome == o
    ensures var s, c := After(s0, acts), After(s0, acts).connections[0];
            After(s0, more) == With(s, 0, c.(toServer := rest, toClient := c.toClient + ReplyOf(o),
                                            handled := c.handled + [Handled(request, o)]))
  {
    hide IsRun, After, PayloadOf, StatusOf, IsFrame, ReadFrame;
    var c := After(s0, acts).connections[0];
    ReadFrameExact(c.toServer, request, rest);
    Extend(s0, acts, ServerServe(0, o));
    Extend(s0, acts + [ServerServe(0, o)], ServerStatus(0));
    Extend(s0, acts + [ServerServe(0, o)] + [ServerStatus(0)], ServerBody(0));
    more := acts + [ServerServe(0, o)] + [ServerStatus(0)] + [ServerBody(0)];
    WrittenWhole(c.toClient, o);
  }

  predicate IsFailure(a: Action) {
    a.Break? || a.ServerStop? || a.ConnectFail? || a.ReadEnd?
  }

  /** A new call is taken up and written. */
  lemma CallWritten(s0: State, acts: seq<Action>, request: bytes) returns (more: seq<Action>)
    requires IsRun(s0, acts)
    requires var s := After(s0, acts);
             s.client == Idle && s.queue == [] && s.kept == Some(0) && |s.connections| == 1 && !s.connections[0].broken
    ensures IsRun(s0, more) && acts <= more && forall k | |acts| <= k < |more| :: !IsFailure(more[k])
    ensures forall k | |acts| <= k < |more| :: !more[k].ServerServe?
    ensures var s, c := After(s0, acts), After(s0, acts).connections[0];
            After(s0, more) == With(s, 0, c.(toServer := c.toServer + request, calls := c.calls + [request])).(
              client := Calling(request, 0, AwaitStatus), kept := None)
  {
    hide IsRun, After;
    Extend(s0, acts, Request(request));
    Extend(s0, acts + [Request(request)], Reuse);
    Extend(s0, acts + [Request(request)] + [Reuse], Write);
    more := acts + [Request(request)] + [Reuse] + [Write];
  }

  /** A status and the frame behind it are read. */
  lemma ReplyRead(s0: State, acts: seq<Action>, f: bytes, rest: bytes) returns (more: seq<Action>)
    requires IsRun(s0, acts) && IsFrame(f)
    requires var s := After(s0, acts);
             s.client.Calling? && s.client.at == 0 && s.client.phase == AwaitStatus && |s.connections| == 1
             && !s.connections[0].broken && s.connections[0].toClient == [RPC_SUCCESS] + (f + rest)
    ensures IsRun(s0, more) && acts <= more && forall k | |acts| <= k < |more| :: !IsFailure(more[k])
    ensures forall k | |acts| <= k < |more| :: !more[k].ServerServe?
    ensures After(s0, more) ==
            Finish(After(s0, acts), After(s0, acts).connections[0].(toClient := rest), Response(f))
  {
    hide IsRun, After, IsFrame, ReadFrame;
    ReadFrameExact(f + rest, f, rest);
    Extend(s0, acts, ReadStatus);
    Extend(s0, acts + [ReadStatus], ReadBody);
    more := acts + [ReadStatus] + [ReadBody];
  }

  /** The first call, up to the point where its request is written. */
  lemma FirstCallWritten(request: bytes) returns (more: seq<Action>)
    ensures IsRun(Init(true), more) && forall k | 0 <= k < |more| :: !IsFailure(more[k])
    ensures forall k | 0 <= k < |more| :: !more[k].ServerServe?
    ensures After(Init(true), more) ==
            State(true, [], Calling(request, 0, AwaitStatus), None,
                  [Connection(request, [], Reading, false, [request], [], [])], [])
  {
    var s0 := Init(true);
    assert IsRun(s0, []) && After(s0, []) == s0;
    hide IsRun, After;
    var none: bytes := [];
    assert none + request == request;
    Extend(s0, [], Request(request));
    assert After(s0, [] + [Request(request)]).queue == [request];
    Extend(s0, [] + [Request(request)], Connect);
    assert After(s0, [] + [Request(request)] + [Connect]) ==
           State(true, [], Calling(request, 0, Sending), None, [Fresh(request)], []);
    Extend(s0, [] + [Request(request)] + [Connect], Write);
    more := [] + [Request(request)] + [Connect] + [Write];
  }

  /** A persistent connection is kept even after an answer that shows it out of step: one stray byte
      behind the first response makes the second call fail, and the third is answered with the second's
      outcome before the server has read it. Nothing fails in this run and every frame is a frame. */
  lemma KeptOutOfStep(q1: bytes, q2: bytes, q3: bytes, f: bytes, r2: bytes) returns (acts: seq<Action>)
    requires IsFrame(q1) && IsFrame(q2) && IsFrame(q3) && IsFrame(f) && IsFrame(r2)
    ensures IsRun(Init(true), acts) && forall k | 0 <= k < |acts| :: !IsFailure(acts[k])
    ensures var s := After(Init(true), acts);
            && |s.connections| == 1 && |s.done| == 3
            && s.connections[0].handled == [Handled(q1, Success(f + [7])), Handled(q2, Success(r2))]
            && s.connections[0].toServer == q3
            && s.done[0].answer == Response(f)
            && s.done[1].answer == InvalidStatusCode(7)
            && s.done[2].request == q3 && s.done[2].answer == Response(r2)
  {
    hide IsRun, After, IsFrame, ReadFrame, Enabled;
    var s0, none: bytes := Init(true), [];
    assert none + q2 == q2 && none + q3 == q3 && q1 + none == q1 && q2 + none == q2;
    assert none + ReplyOf(Success(f + [7])) == [RPC_SUCCESS] + (f + [7]);
    assert none + ReplyOf(Success(r2)) == [RPC_SUCCESS] + (r2 + []);
    acts := FirstCallWritten(q1);
    acts := ServerAnswers(s0, acts, q1, none, Success(f + [7]));
    acts := ReplyRead(s0, acts, f, [7]);
    acts := CallWritten(s0, acts, q2);
    acts := StrayStatus(s0, acts);
    acts := ServerAnswers(s0, acts, q2, none, Success(r2));
    acts := CallWritten(s0, acts, q3);
    acts := ReplyRead(s0, acts, r2, []);
  }

  /** Two frames sent as one request: the server answers both, and the next call is answered with the
      second one's outcome before its own request was read. Nothing fails in this run and every outcome is
      well framed. */
  lemma TwoInOne(q1: bytes, q2: bytes, q3: bytes, r1: bytes, r2: bytes) returns (acts: seq<Action>)
    requires IsFrame(q1) && IsFrame(q2) && IsFrame(q3) && IsFrame(r1) && IsFrame(r2)
    ensures IsRun(Init(true), acts) && forall k | 0 <= k < |acts| :: !IsFailure(acts[k])
    ensures forall k | 0 <= k < |acts| && acts[k].ServerServe? :: WellFramed(acts[k].outcome)
    ensures var s := After(Init(true), acts);
            && |s.connections| == 1 && |s.done| == 2
            && s.connections[0].handled == [Handled(q1, Success(r1)), Handled(q2, Success(r2))]
            && s.connections[0].toServer == q3
            && s.done[0].request == q1 + q2 && s.done[0].answer == Response(r1)
            && s.done[1].request == q3 && s.done[1].answer == Response(r2)
  {
    hide IsRun, After, IsFrame, ReadFrame, Enabled;
    var s0, none: bytes := Init(true), [];
    assert none + q3 == q3 && q2 + none == q2;
    assert none + ReplyOf(Success(r1)) == [RPC_SUCCESS] + (r1 + none);
    assert none + ReplyOf(Success(r2)) == [RPC_SUCCESS] + (r2 + none);
    acts := FirstCallWritten(q1 + q2);
    acts := ServerAnswers(s0, acts, q1, q2, Success(r1));
    acts := ReplyRead(s0, acts, r1, none);
    acts := ServerAnswers(s0, acts, q2, none, Success(r2));
    acts := CallWritten(s0, acts, q3);
    acts := ReplyRead(s0, acts, r2, none);
  }

  lemma StrayStatus(s0: State, acts: seq<Action>) returns (more: seq<Action>)
    requires IsRun(s0, acts)
    requires var s := After(s0, acts);
             s.client.Calling? && s.client.at == 0 && s.client.phase == AwaitStatus && |s.connections| == 1
             && !s.connections[0].broken && s.connections[0].toClient == [7]
    ensures IsRun(s0, more) && acts <= more && forall k | |acts| <= k < |more| :: !IsFailure(more[k])
    ensures After(s0, more) ==
            Finish(After(s0, acts), After(s0, acts).connections[0].(toClient := []), InvalidStatusCode(7))
  {
    hide IsRun, After;
    assert After(s0, acts).connections[0].toClient[1..] == [];
    Extend(s0, acts, ReadStatus);
    more := acts + [ReadStatus];
  }

  // ---------------------------------------------------------------- A persistent link does not recover

  /** All that a persistent link's place in its one connection needs. */
  predicate OneConnection(s: State) {
    && s.persistent && |s.connections| <= 1
    && (s.client.Calling? ==> s.client.at == 0 && |s.connections| == 1)
    && (s.client == Idle && |s.connections| == 1 ==> s.kept == Some(0))
  }

  /** Nothing will ever be read from the connection again. */
  predicate Dead(s: State) {
    && |s.connections| == 1
    && (s.connections[0].broken || (s.connections[0].server == Closed && s.connections[0].toClient == []))
  }

  lemma OneConnectionStep(s: State, a: Action)
    requires OneConnection(s) && Enabled(s, a)
    ensures OneConnection(Apply(s, a))
    ensures a.ReadEnd? || a.Break? ==> Dead(Apply(s, a))
  {
    hide ReadFrame, IsFrame, CanStop, AnswerFrom, PayloadOf;
  }

  lemma DeadStep(s: State, a: Action)
    requires OneConnection(s) && Dead(s) && Enabled(s, a)
    ensures Dead(Apply(s, a))
    ensures var s' := Apply(s, a);
            |s.done| <= |s'.done| && s'.done[..|s.done|] == s.done
            && forall i | |s.done| <= i < |s'.done| :: s'.done[i].answer == Io
  {
    hide IsFrame, AnswerFrom, PayloadOf;
  }

  lemma {:induction false} DeadRun(s: State, acts: seq<Action>)
    requires OneConnection(s) && Dead(s) && IsRun(s, acts)
    ensures var s' := After(s, acts);
            |s.done| <= |s'.done| && s'.done[..|s.done|] == s.done
            && forall i | |s.done| <= i < |s'.done| :: s'.done[i].answer == Io
    decreases |acts|
  {
    hide Apply, Enabled, Dead, OneConnection;
    if acts != [] {
      var s1, s2 := Apply(s, acts[0]), After(s, acts);
      OneConnectionStep(s, acts[0]);
      DeadStep(s, acts[0]);
      DeadRun(s1, acts[1..]);
      assert s2.done[..|s.done|] == s2.done[..|s1.done|][..|s.done|];
      forall i | |s.done| <= i < |s1.done| ensures s2.done[i].answer == Io {
        assert s2.done[i] == s2.done[..|s1.done|][i] == s1.done[i];
      }
    }
  }

  lemma {:induction false} RunOneConnection(s: State, acts: seq<Action>)
    requires OneConnection(s) && IsRun(s, acts)
    ensures OneConnection(After(s, acts))
    decreases |acts|
  {
    hide Apply, Enabled, OneConnection;
    if acts != [] {
      OneConnectionStep(s, acts[0]);
      RunOneConnection(Apply(s, acts[0]), acts[1..]);
    }
  }

  lemma {:induction false} RunSplit(s: State, acts: seq<Action>, k: nat)
    requires IsRun(s, acts) && k <= |acts|
    ensures IsRun(s, acts[..k]) && IsRun(After(s, acts[..k]), acts[k..])
    ensures After(After(s, acts[..k]), acts[k..]) == After(s, acts)
    decreases |acts|
  {
    hide Apply, Enabled;
    if k == 0 {
      assert acts[..0] == [] && acts[0..] == acts;
    } else {
      RunSplit(Apply(s, acts[0]), acts[1..], k - 1);
      assert acts[..k][0] == acts[0] && acts[..k][1..] == acts[1..][..k - 1] && acts[1..][k - 1..] == acts[k..];
    }
  }

  /** Once a call on a persistent link has ended by the end of the stream or a broken connection, every
      later call ends with an I/O error, for the rest of any run and whatever the messages: the connection
      is kept and no other is made. */
  lemma NeverRecovers(acts: seq<Action>, k: nat)
    requires IsRun(Init(true), acts) && k < |acts| && (acts[k].ReadEnd? || acts[k].Break?)
    requires IsRun(Init(true), acts[..k + 1])
    ensures var s, s' := After(Init(true), acts[..k + 1]), After(Init(true), acts);
            |s.done| <= |s'.done| && forall i | |s.done| <= i < |s'.done| :: s'.done[i].answer == Io
  {
    hide Apply, Enabled;
    var s0 := Init(true);
    RunSplit(s0, acts, k + 1);
    RunSplit(s0, acts[..k + 1], k);
    assert acts[..k + 1][..k] == acts[..k] && acts[..k + 1][k..] == [acts[k]];
    var before := After(s0, acts[..k]);
    RunOneConnection(s0, acts[..k]);
    OneConnectionStep(before, acts[k]);
    assert After(s0, acts[..k + 1]) == After(before, [acts[k]]) == Apply(before, acts[k]);
    DeadRun(Apply(before, acts[k]), acts[k + 1..]);
  }
}
