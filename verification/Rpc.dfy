/** The service link: the client's loop and one server task per connection, talking over two byte
    streams. Any server task may stop and any connection may break at any moment; `connections` keeps
    every connection ever made. */
module Rpc {
  import opened Wrappers
  import opened Bytes
  import opened Utf8

  const RPC_SUCCESS: byte := 1
  const RPC_FAILURE: byte := 0

  /** What the service's callback returns; an error is known by its text. */
  datatype Outcome = Success(response: bytes) | Failure(text: string)

  /** What a caller is given. */
  datatype Answer =
    | Response(data: bytes)
    | RpcFailure(message: string)
    | InvalidStatusCode(code: byte)
    | Io
    | NotConnected

  /** A message's string encoding: a 32-bit length and the text. */
  function EncodeText(s: string): bytes {
    U32Le(|ToUtf8(s)|) + ToUtf8(s)
  }

  function DecodeText(frame: bytes): Answer
    requires |frame| >= 4
  {
    match FromUtf8(frame[4..])
    case Some(s) => RpcFailure(s)
    case None => Io
  }

  function StatusOf(o: Outcome): byte {
    if o.Success? then RPC_SUCCESS else RPC_FAILURE
  }

  function PayloadOf(o: Outcome): bytes {
    if o.Success? then o.response else EncodeText(o.text)
  }

  /** What the server writes for an outcome. */
  function ReplyOf(o: Outcome): bytes {
    [StatusOf(o)] + PayloadOf(o)
  }

  /** What the outcome means to the caller. */
  function AnswerOf(o: Outcome): Answer {
    if o.Success? then Response(o.response) else RpcFailure(o.text)
  }

  /** What the client makes of a status it knows and the frame after it. */
  function AnswerFrom(status: byte, frame: bytes): Answer
    requires |frame| >= 4
  {
    if status == RPC_SUCCESS then Response(frame) else DecodeText(frame)
  }

  predicate WellFramed(o: Outcome) {
    match o
    case Success(response) => IsFrame(response)
    case Failure(text) => |ToUtf8(text)| < U32_MODULUS
  }

  /** A payload is one frame exactly when the outcome is well framed, and then it says what the outcome
      means; an error's text comes back through its encoding. */
  lemma PayloadExact(o: Outcome)
    ensures IsFrame(PayloadOf(o)) <==> WellFramed(o)
    ensures WellFramed(o) ==> AnswerFrom(StatusOf(o), PayloadOf(o)) == AnswerOf(o)
  {
    match o
    case Success(response) =>
    case Failure(text) =>
      FrameOf(ToUtf8(text));
      Utf8Exact(text, ToUtf8(text));
      assert EncodeText(text)[4..] == ToUtf8(text);
  }

  // ---------------------------------------------------------------- One connection

  datatype Server = Reading | AtStatus(outcome: Outcome) | AtBody(outcome: Outcome) | Closed

  datatype Handled = Handled(request: bytes, outcome: Outcome)

  datatype Connection = Connection(
    toServer: bytes,
    toClient: bytes,
    server: Server,
    broken: bool,            // the client's reads and writes fail
    calls: seq<bytes>,       // the requests the client has used it for
    handled: seq<Handled>,   // the requests the callback has answered
    replies: seq<Answer>     // what those calls returned
  )

  datatype Phase = Sending | AwaitStatus | AwaitBody(status: byte)

  /** The connection as the handshake leaves it, taken for its first call. */
  function Fresh(request: bytes): Connection {
    Connection([], [], Reading, false, [request], [], [])
  }

  /** The server reads a request and its callback returns. */
  function Serve(c: Connection, o: Outcome): Connection
    requires ReadFrame(c.toServer).Frame?
  {
    var read := ReadFrame(c.toServer);
    c.(toServer := read.rest, server := AtStatus(o), handled := c.handled + [Handled(read.frame, o)])
  }

  function WriteStatus(c: Connection): Connection
    requires c.server.AtStatus?
  {
    c.(toClient := c.toClient + [StatusOf(c.server.outcome)], server := AtBody(c.server.outcome))
  }

  function WriteBody(c: Connection, persistent: bool): Connection
    requires c.server.AtBody?
  {
    c.(toClient := c.toClient + PayloadOf(c.server.outcome), server := if persistent then Reading else Closed)
  }

  predicate CanStop(c: Connection, k: nat) {
    match c.server
    case AtBody(o) => k <= |PayloadOf(o)|
    case Closed => false
    case _ => k == 0
  }

  /** The server's task is cancelled or fails, maybe halfway through a body. */
  function Stop(c: Connection, k: nat): Connection
    requires CanStop(c, k)
  {
    c.(server := Closed, toClient := if c.server.AtBody? then c.toClient + PayloadOf(c.server.outcome)[..k] else c.toClient)
  }

  predicate CanRead(c: Connection, phase: Phase) {
    !c.broken && ((phase == AwaitStatus && c.toClient != []) || (phase.AwaitBody? && ReadFrame(c.toClient).Frame?))
  }

  /** The stream ends before what the client is waiting for. */
  predicate AtEnd(c: Connection, phase: Phase) {
    !c.broken && c.server == Closed && phase != Sending && !CanRead(c, phase)
  }

  function Replied(c: Connection, answer: Answer): Connection {
    c.(replies := c.replies + [answer])
  }

  // ---------------------------------------------------------------- What a connection keeps

  predicate Answered(c: Connection, k: nat)
    requires k < |c.replies| <= |c.calls|
  {
    && k < |c.handled| && c.handled[k].request == c.calls[k]
    && c.replies[k] == AnswerOf(c.handled[k].outcome)
  }

  /** What the client has yet to read of a reply. */
  function Remaining(o: Outcome, phase: Phase): bytes {
    if phase.AwaitBody? then PayloadOf(o) else ReplyOf(o)
  }

  /** What the server has yet to write of a reply. */
  function Unwritten(server: Server): bytes {
    match server
    case AtStatus(o) => ReplyOf(o)
    case AtBody(o) => PayloadOf(o)
    case _ => []
  }

  /** Both ends of a connection that is not broken are at the same place in the same exchange. */
  predicate InStep(c: Connection, phase: Option<Phase>) {
    var n := |c.replies|;
    if phase == None || phase == Some(Sending) then
      && c.toClient == [] && |c.handled| <= n
      && (c.server == Closed || (c.toServer == [] && c.server == Reading && |c.handled| == n))
    else if n < |c.handled| then
      var o := c.handled[n].outcome;
      && n < |c.calls| && |c.handled| == n + 1 && c.handled[n].request == c.calls[n] && WellFramed(o)
      && (phase.value.AwaitBody? ==> phase.value.status == StatusOf(o))
      && (if c.server == Closed then c.toClient <= Remaining(o, phase.value)
          else && c.toServer == [] && c.toClient + Unwritten(c.server) == Remaining(o, phase.value)
               && (c.server != Reading ==> c.server.outcome == o))
    else
      && n < |c.calls| && c.toClient == [] && phase.value == AwaitStatus
      && (c.server == Closed || (c.server == Reading && |c.handled| == n && c.toServer == c.calls[n]))
  }

  predicate ConnectionOk(c: Connection, phase: Option<Phase>) {
    && |c.calls| == |c.replies| + (if phase.Some? then 1 else 0)
    && (forall k | 0 <= k < |c.replies| :: c.replies[k] == Io || Answered(c, k))
    && (forall k | 0 <= k < |c.calls| :: IsFrame(c.calls[k]))
    && (!c.broken ==> InStep(c, phase))
  }

  lemma ServeKeeps(c: Connection, phase: Option<Phase>, o: Outcome)
    requires ConnectionOk(c, phase) && c.server == Reading && ReadFrame(c.toServer).Frame? && WellFramed(o)
    ensures ConnectionOk(Serve(c, o), phase)
  {
    hide IsFrame, WellFramed, PayloadOf, StatusOf, AnswerOf;
    var c', n := Serve(c, o), |c.replies|;
    forall k | 0 <= k < |c'.replies| ensures c'.replies[k] == Io || Answered(c', k) {
      assert c.replies[k] == Io || Answered(c, k);
    }
    if !c.broken {
      assert phase.Some? && phase.value != Sending && |c.handled| == n;
      ReadFrameExact(c.toServer, c.calls[n], []);
    }
  }

  lemma WriteStatusKeeps(c: Connection, phase: Option<Phase>)
    requires ConnectionOk(c, phase) && c.server.AtStatus?
    ensures ConnectionOk(WriteStatus(c), phase)
  {
    hide IsFrame, WellFramed, PayloadOf, StatusOf, AnswerOf;
    hide ReplyOf;
    var c', o := WriteStatus(c), c.server.outcome;
    assert forall k | 0 <= k < |c'.replies| :: Answered(c, k) ==> Answered(c', k);
    WrittenWhole(c.toClient, o);
  }

  lemma WrittenWhole(written: bytes, o: Outcome)
    ensures written + [StatusOf(o)] + PayloadOf(o) == written + ReplyOf(o)
  {
    hide StatusOf, PayloadOf;
  }

  lemma WriteBodyKeeps(c: Connection, phase: Option<Phase>, persistent: bool)
    requires ConnectionOk(c, phase) && c.server.AtBody?
    ensures ConnectionOk(WriteBody(c, persistent), phase)
  {
    hide IsFrame, WellFramed, PayloadOf, StatusOf, AnswerOf;
    var c' := WriteBody(c, persistent);
    assert forall k | 0 <= k < |c'.replies| :: Answered(c, k) ==> Answered(c', k);
    assert c'.toClient + Unwritten(c'.server) == c.toClient + Unwritten(c.server);
  }

  lemma StopKeeps(c: Connection, phase: Option<Phase>, k: nat)
    requires ConnectionOk(c, phase) && CanStop(c, k)
    ensures ConnectionOk(Stop(c, k), phase)
  {
    hide IsFrame, WellFramed, PayloadOf, StatusOf, AnswerOf;
    var c' := Stop(c, k);
    assert forall k | 0 <= k < |c'.replies| :: Answered(c, k) ==> Answered(c', k);
    assert c'.toClient <= c.toClient + Unwritten(c.server);
  }

  lemma StartKeeps(c: Connection, request: bytes)
    requires ConnectionOk(c, None) && IsFrame(request)
    ensures ConnectionOk(c.(calls := c.calls + [request]), Some(Sending))
  {
    hide IsFrame, WellFramed, AnswerOf;
    var c' := c.(calls := c.calls + [request]);
    assert forall k | 0 <= k < |c'.replies| :: Answered(c, k) ==> Answered(c', k);
  }

  lemma WriteKeeps(c: Connection)
    requires ConnectionOk(c, Some(Sending)) && !c.broken
    ensures ConnectionOk(c.(toServer := c.toServer + c.calls[|c.replies|]), Some(AwaitStatus))
  {
    hide IsFrame, WellFramed, AnswerOf;
    var c' := c.(toServer := c.toServer + c.calls[|c.replies|]);
    assert forall k | 0 <= k < |c'.replies| :: Answered(c, k) ==> Answered(c', k);
  }

  /** A status that can be read is the outcome's, and its body is next. */
  lemma ReadStatusKeeps(c: Connection)
    requires ConnectionOk(c, Some(AwaitStatus)) && CanRead(c, AwaitStatus)
    ensures c.toClient[0] == RPC_SUCCESS || c.toClient[0] == RPC_FAILURE
    ensures ConnectionOk(c.(toClient := c.toClient[1..]), Some(AwaitBody(c.toClient[0])))
  {
    hide IsFrame, WellFramed, PayloadOf, AnswerOf;
    var c', n := c.(toClient := c.toClient[1..]), |c.replies|;
    assert forall k | 0 <= k < |c'.replies| :: Answered(c, k) ==> Answered(c', k);
    var o := c.handled[n].outcome;
    assert c.toClient[0] == ReplyOf(o)[0] by {
      if c.server == Closed {
        assert c.toClient <= ReplyOf(o);
      } else {
        assert (c.toClient + Unwritten(c.server))[0] == ReplyOf(o)[0];
      }
    }
    assert ReplyOf(o)[1..] == PayloadOf(o);
    if c.server != Closed {
      assert (c.toClient + Unwritten(c.server))[1..] == c'.toClient + Unwritten(c'.server);
    }
  }

  /** A body that can be read is the whole payload of the callback's outcome on this request. */
  lemma ReadBodyKeeps(c: Connection, status: byte)
    requires ConnectionOk(c, Some(AwaitBody(status))) && CanRead(c, AwaitBody(status))
    ensures var read := ReadFrame(c.toClient);
            ConnectionOk(Replied(c.(toClient := read.rest), AnswerFrom(status, read.frame)), None)
    ensures c.server == Reading || c.server == Closed
  {
    hide WellFramed, PayloadOf, StatusOf, AnswerFrom, AnswerOf;
    var n, read := |c.replies|, ReadFrame(c.toClient);
    var o := c.handled[n].outcome;
    PayloadExact(o);
    PrefixFrame(c.toClient, PayloadOf(o));
    var c' := Replied(c.(toClient := read.rest), AnswerFrom(status, read.frame));
    assert forall k | 0 <= k < n :: Answered(c, k) ==> Answered(c', k);
    assert Answered(c', n);
    assert c.server != Closed ==> |c.toClient| + |Unwritten(c.server)| == |PayloadOf(o)|;
  }

  /** If a prefix of a frame holds a frame, it is the whole frame. */
  lemma PrefixFrame(s: bytes, f: bytes)
    requires s <= f && IsFrame(f) && ReadFrame(s).Frame?
    ensures s == f && ReadFrame(s) == Frame(f, [])
  {
    ReadFrameExact(s, ReadFrame(s).frame, ReadFrame(s).rest);
    assert s[..4] == f[..4];
    ReadLePrefix(s, f, 4);
    assert s == f;
  }

  lemma EndKeeps(c: Connection, phase: Phase)
    requires ConnectionOk(c, Some(phase)) && AtEnd(c, phase)
    ensures ConnectionOk(Replied(c.(toClient := []), Io), None)
  {
    hide IsFrame, WellFramed, AnswerOf;
    var c' := Replied(c.(toClient := []), Io);
    assert forall k | 0 <= k < |c.replies| :: Answered(c, k) ==> Answered(c', k);
  }

  lemma BreakKeeps(c: Connection, phase: Phase, sent: bytes)
    requires ConnectionOk(c, Some(phase))
    ensures ConnectionOk(Replied(c.(broken := true, toServer := c.toServer + sent), Io), None)
  {
    hide IsFrame, WellFramed, AnswerOf;
    var c' := Replied(c.(broken := true, toServer := c.toServer + sent), Io);
    assert forall k | 0 <= k < |c.replies| :: Answered(c, k) ==> Answered(c', k);
  }
}
