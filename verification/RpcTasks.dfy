/** The service link's loops as code: what the client's task and a server's task do with the bytes that
    reach them. `RpcLink` interleaves their steps. */
module RpcTasks {
  import opened Wrappers
  import opened Bytes
  import opened Utf8
  import opened Headers
  import opened Handshake
  import opened Rpc
  import opened PublicationTasks

  // ---------------------------------------------------------------- The client's side of one exchange

  datatype Read = Read(answer: Answer, rest: bytes)

  /** What the bytes arriving for one exchange say, and what they leave. */
  function ReadReply(s: bytes): Read {
    if s == [] then Read(Io, [])
    else if s[0] != RPC_SUCCESS && s[0] != RPC_FAILURE then Read(InvalidStatusCode(s[0]), s[1..])
    else
      match ReadFrame(s[1..])
      case Frame(f, rest) => Read(AnswerFrom(s[0], f), rest)
      case Incomplete => Read(Io, [])
  }

  /** A well-framed reply is read as what it means and no further. */
  lemma ReplyReadsBack(o: Outcome, rest: bytes)
    requires WellFramed(o)
    ensures ReadReply(ReplyOf(o) + rest) == Read(AnswerOf(o), rest)
  {
    hide WellFramed, PayloadOf, AnswerFrom, AnswerOf, IsFrame, ReadFrame;
    var p := PayloadOf(o);
    PayloadExact(o);
    ReadFrameExact(p + rest, p, rest);
    assert (ReplyOf(o) + rest)[1..] == p + rest;
    assert (ReplyOf(o) + rest)[0] == StatusOf(o);
  }

  /** What the server writes for an outcome, spelled out: 1 and the response, or 0 and the text. */
  lemma ReplyBytes(o: Outcome)
    ensures o.Success? ==> ReplyOf(o) == [1] + o.response
    ensures o.Failure? ==> ReplyOf(o) == [0] + (U32Le(|ToUtf8(o.text)|) + ToUtf8(o.text))
  {
  }

  /** What the client reads, spelled out: after 1 a frame is the response; after 0 a frame is the error's text,
      if it is one; any other first byte is an invalid code and all that is taken; and a stream that ends
      before that is an I/O error. */
  lemma ReadReplyExact(code: byte, f: bytes, rest: bytes)
    ensures ReadReply([]) == Read(Io, [])
    ensures code != 0 && code != 1 ==> ReadReply([code] + rest) == Read(InvalidStatusCode(code), rest)
    ensures code <= 1 && ReadFrame(rest) == Incomplete ==> ReadReply([code] + rest) == Read(Io, [])
    ensures IsFrame(f) ==> ReadReply([1] + (f + rest)) == Read(Response(f), rest)
    ensures IsFrame(f) ==> ReadReply([0] + (f + rest)).rest == rest
    ensures IsFrame(f) && (forall t :: ToUtf8(t) != f[4..]) ==> ReadReply([0] + (f + rest)).answer == Io
    ensures forall t | IsFrame(f) && ToUtf8(t) == f[4..] :: ReadReply([0] + (f + rest)).answer == RpcFailure(t)
  {
    hide IsFrame, ReadFrame, FromUtf8, ToUtf8;
    assert ([code] + rest)[1..] == rest;
    assert ([1] + (f + rest))[1..] == f + rest && ([0] + (f + rest))[1..] == f + rest;
    ReadFrameExact(f + rest, f, rest);
    if IsFrame(f) {
      assert |f| >= 4 by { FrameIsLong(f); }
      forall t ensures FromUtf8(f[4..]) == Some(t) <==> f[4..] == ToUtf8(t) {
        Utf8Exact(t, f[4..]);
      }
    }
  }

  lemma FrameIsLong(f: bytes)
    requires IsFrame(f)
    ensures |f| >= 4
  {
  }

  /** `handle_rpc`. */
  method HandleRpc(request: bytes, reader: Reader, writer: Stream) returns (r: Answer)
    modifies reader, writer
    ensures writer.written == old(writer.written) + request
    ensures Read(r, reader.arrived) == ReadReply(old(reader.arrived))
  {
    writer.WriteAll(request);
    var status := new byte[1];
    var ok := reader.ReadExact(status, 0);
    if !ok {
      return Io;
    }
    var code := status[0];
    assert status[..] == old(reader.arrived)[..1];
    assert code == old(reader.arrived)[0];
    if code == RPC_SUCCESS {
      var data := reader.ReadTcprosFrame();
      if data == None {
        return Io;
      }
      return Response(data.value);
    } else if code == RPC_FAILURE {
      var text := reader.ReadTcprosFrame();
      if text == None {
        return Io;
      }
      ReadFrameExact(old(reader.arrived)[1..], text.value, reader.arrived);
      return DecodeText(text.value);
    } else {
      return InvalidStatusCode(code);
    }
  }

  // ---------------------------------------------------------------- The server's loop

  /** What a server task writes for everything that arrives; `callback(k, q)` is the outcome of its
      `k`-th invocation. */
  function Served(s: bytes, persistent: bool, callback: (nat, bytes) -> Outcome, k: nat): bytes
    decreases |s|
  {
    match ReadFrame(s)
    case Frame(f, rest) => ReplyOf(callback(k, f)) + (if persistent then Served(rest, persistent, callback, k + 1) else [])
    case Incomplete => []
  }

  /** `rpc_task` of a server, until the stream ends. */
  method ServerTask(reader: Reader, writer: Stream, persistent: bool, callback: (nat, bytes) -> Outcome)
    modifies reader, writer
    ensures writer.written == old(writer.written) + Served(old(reader.arrived), persistent, callback, 0)
  {
    var k := 0;
    while true
      invariant old(writer.written) + Served(old(reader.arrived), persistent, callback, 0)
             == writer.written + Served(reader.arrived, persistent, callback, k)
      decreases |reader.arrived|
    {
      ghost var before, wrote := reader.arrived, writer.written;
      var data := reader.ReadTcprosFrame();
      if data == None {
        return;
      }
      var outcome := callback(k, data.value);
      if outcome.Success? {
        writer.WriteAll([RPC_SUCCESS]);
        writer.WriteAll(outcome.response);
      } else {
        writer.WriteAll([RPC_FAILURE]);
        writer.WriteAll(EncodeText(outcome.text));
      }
      WrittenWhole(wrote, outcome);
      if !persistent {
        return;
      }
      Joined(wrote, ReplyOf(outcome), Served(reader.arrived, persistent, callback, k + 1));
      k := k + 1;
    }
  }

  lemma Joined(a: bytes, b: bytes, c: bytes)
    ensures (a + b) + c == a + (b + c)
  {
  }

  function Replies(outcomes: seq<Outcome>): bytes {
    if outcomes == [] then [] else ReplyOf(outcomes[0]) + Replies(outcomes[1..])
  }

  function Outcomes(requests: seq<bytes>, callback: (nat, bytes) -> Outcome, k: nat): seq<Outcome> {
    seq(|requests|, i requires 0 <= i < |requests| => callback(k + i, requests[i]))
  }

  /** Requests that arrive back to back are each given to the callback, in order, and the replies are
      written back to back; the bytes of a request that has not arrived in full are given to no one. */
  lemma {:induction false} ServedInOrder(requests: seq<bytes>, partial: bytes, callback: (nat, bytes) -> Outcome, k: nat)
    requires forall i | 0 <= i < |requests| :: IsFrame(requests[i])
    requires ReadFrame(partial) == Incomplete
    ensures Served(Flatten(requests) + partial, true, callback, k) == Replies(Outcomes(requests, callback, k))
    decreases |requests|
  {
    hide IsFrame, ReadFrame, ReplyOf;
    if requests == [] {
      assert Flatten(requests) + partial == partial;
    } else {
      var q, rest := requests[0], Flatten(requests[1..]) + partial;
      assert Flatten(requests) + partial == q + rest;
      ReadFrameExact(q + rest, q, rest);
      ServedInOrder(requests[1..], partial, callback, k + 1);
      assert Outcomes(requests, callback, k)[1..] == Outcomes(requests[1..], callback, k + 1);
    }
  }

  // ---------------------------------------------------------------- The client's loop

  /** The answers a client's task gives: `kept` is what will arrive on the connection it holds, and
      `supply[i]` what would arrive on a connection made for call `i`, `None` if making it fails. */
  function Session(queue: seq<bytes>, persistent: bool, kept: Option<bytes>, supply: seq<Option<bytes>>): seq<Answer>
    requires |supply| == |queue|
  {
    if queue == [] then []
    else
      var connection := if kept.Some? then kept else supply[0];
      if connection == None then [NotConnected] + Session(queue[1..], persistent, None, supply[1..])
      else
        var read := ReadReply(connection.value);
        [read.answer] + Session(queue[1..], persistent, if persistent then Some(read.rest) else None, supply[1..])
  }

  lemma SessionEnds(queue: seq<bytes>, persistent: bool, kept: Option<bytes>, supply: seq<Option<bytes>>)
    requires |queue| == |supply| == 0
    ensures Session(queue, persistent, kept, supply) == []
  {
  }

  lemma SessionStep(queue: seq<bytes>, persistent: bool, kept: Option<bytes>, supply: seq<Option<bytes>>, i: nat)
    requires |supply| == |queue| && i < |queue|
    ensures var connection := if kept.Some? then kept else supply[i];
            Session(queue[i..], persistent, kept, supply[i..]) ==
            match connection
            case None => [NotConnected] + Session(queue[i + 1..], persistent, None, supply[i + 1..])
            case Some(arriving) =>
              [ReadReply(arriving).answer] +
              Session(queue[i + 1..], persistent,
                      if persistent then Some(ReadReply(arriving).rest) else None, supply[i + 1..])
  {
    hide ReadReply;
    assert queue[i..][1..] == queue[i + 1..] && supply[i..][1..] == supply[i + 1..];
  }

  /** `rpc_task` of a client, over the calls made to it. */
  method ClientTask(queue: seq<bytes>, persistent: bool, supply: seq<Option<bytes>>) returns (answers: seq<Answer>)
    requires |supply| == |queue|
    ensures answers == Session(queue, persistent, None, supply)
  {
    hide ReadReply, Session;
    var connectionState: Option<(Reader, Stream)> := None;
    answers := [];
    assert queue[0..] == queue && supply[0..] == supply;
    for i := 0 to |queue|
      invariant connectionState.Some? ==> fresh(connectionState.value.0) && fresh(connectionState.value.1)
      invariant Session(queue, persistent, None, supply) ==
                answers + Session(queue[i..], persistent,
                                  if connectionState.Some? then Some(connectionState.value.0.arrived) else None,
                                  supply[i..])
    {
      SessionStep(queue, persistent,
                  if connectionState.Some? then Some(connectionState.value.0.arrived) else None, supply, i);
      var connection := connectionState;
      connectionState := None;
      var answer := NotConnected;
      if connection == None && supply[i].Some? {
        var reader := new Reader(supply[i].value);
        var writer := new Stream();
        connection := Some((reader, writer));
      }
      if connection.Some? {
        answer := HandleRpc(queue[i], connection.value.0, connection.value.1);
        if persistent {
          connectionState := connection;
        }
      }
      answers := answers + [answer];
    }
    SessionEnds(queue[|queue|..], persistent,
                if connectionState.Some? then Some(connectionState.value.0.arrived) else None, supply[|queue|..]);
  }

  /** Without persistence a call's answer depends on its own connection only. */
  lemma {:induction false} OneShotExact(queue: seq<bytes>, supply: seq<Option<bytes>>, i: nat)
    requires |supply| == |queue| && i < |queue|
    ensures |Session(queue, false, None, supply)| == |queue|
    ensures Session(queue, false, None, supply)[i] ==
            if supply[i] == None then NotConnected else ReadReply(supply[i].value).answer
    decreases |queue|
  {
    hide ReadReply;
    if |queue| > 1 {
      OneShotExact(queue[1..], supply[1..], if i > 0 then i - 1 else 0);
    }
  }

  /** The answers read one after the other from one stream. */
  function ReadAll(arriving: bytes, n: nat): seq<Answer>
    decreases n
  {
    if n == 0 then [] else [ReadReply(arriving).answer] + ReadAll(ReadReply(arriving).rest, n - 1)
  }

  lemma {:induction false} KeptExact(queue: seq<bytes>, arriving: bytes, supply: seq<Option<bytes>>)
    requires |supply| == |queue|
    ensures Session(queue, true, Some(arriving), supply) == ReadAll(arriving, |queue|)
    decreases |queue|
  {
    hide ReadReply;
    if queue != [] {
      KeptExact(queue[1..], ReadReply(arriving).rest, supply[1..]);
    }
  }

  /** With persistence the calls fail until the first that can connect; from it on, whatever the answers and
      whatever else could be connected to, all read the one stream of its connection, in order. */
  lemma {:induction false} PersistentExact(queue: seq<bytes>, supply: seq<Option<bytes>>, j: nat)
    requires |supply| == |queue| && j <= |queue|
    requires forall i | 0 <= i < j :: supply[i] == None
    requires j < |queue| ==> supply[j].Some?
    ensures Session(queue, true, None, supply) ==
            seq(j, i => NotConnected) + (if j == |queue| then [] else ReadAll(supply[j].value, |queue| - j))
    decreases |queue|
  {
    hide ReadReply;
    if j > 0 {
      PersistentExact(queue[1..], supply[1..], j - 1);
      assert seq(j, i => NotConnected) == [NotConnected] + seq(j - 1, i => NotConnected);
    } else if queue != [] {
      KeptExact(queue[1..], ReadReply(supply[0].value).rest, supply[1..]);
    }
  }

  function Answers(outcomes: seq<Outcome>): seq<Answer> {
    seq(|outcomes|, i requires 0 <= i < |outcomes| => AnswerOf(outcomes[i]))
  }

  /** Replies that arrive back to back on a kept connection answer the calls one by one. */
  lemma {:induction false} KeptSession(queue: seq<bytes>, outcomes: seq<Outcome>, tail: bytes, supply: seq<Option<bytes>>)
    requires |outcomes| == |queue| == |supply|
    requires forall i | 0 <= i < |outcomes| :: WellFramed(outcomes[i])
    ensures Session(queue, true, Some(Replies(outcomes) + tail), supply) == Answers(outcomes)
    decreases |queue|
  {
    hide ReadReply, WellFramed, ReplyOf, AnswerOf;
    if queue != [] {
      var rest := Replies(outcomes[1..]) + tail;
      assert Replies(outcomes) + tail == ReplyOf(outcomes[0]) + rest;
      ReplyReadsBack(outcomes[0], rest);
      KeptSession(queue[1..], outcomes[1..], tail, supply[1..]);
      assert Answers(outcomes) == [AnswerOf(outcomes[0])] + Answers(outcomes[1..]);
    }
  }

  /** A whole persistent session against a server task: if all requests and responses are framed, the
      answers are the callback's outcomes on the requests, in order; and for any number of calls the server
      has written all they read when it has been sent no more than their requests, so that a client may wait
      for each answer before it sends the next request. */
  lemma PersistentSession(queue: seq<bytes>, callback: (nat, bytes) -> Outcome, supply: seq<Option<bytes>>)
    requires |supply| == |queue| > 0
    requires supply[0] == Some(Served(Flatten(queue), true, callback, 0))
    requires forall i | 0 <= i < |queue| :: IsFrame(queue[i])
    requires forall i | 0 <= i < |queue| :: WellFramed(callback(i, queue[i]))
    ensures Session(queue, true, None, supply) == Answers(Outcomes(queue, callback, 0))
    ensures forall i | 0 <= i <= |queue| ::
              Served(Flatten(queue[..i]), true, callback, 0) == Replies(Outcomes(queue, callback, 0)[..i])
  {
    hide WellFramed, IsFrame, ReplyOf, AnswerOf, ReadReply, Served;
    var outcomes, none: bytes := Outcomes(queue, callback, 0), [];
    assert Flatten(queue) + none == Flatten(queue);
    ServedInOrder(queue, none, callback, 0);
    assert Replies(outcomes) + none == Replies(outcomes);
    KeptSession(queue, outcomes, none, supply);
    assert Session(queue, true, None, supply) == Session(queue, true, supply[0], supply);
    forall i | 0 <= i <= |queue| ensures Served(Flatten(queue[..i]), true, callback, 0) == Replies(outcomes[..i]) {
      assert Flatten(queue[..i]) + none == Flatten(queue[..i]);
      ServedInOrder(queue[..i], none, callback, 0);
      assert Outcomes(queue[..i], callback, 0) == outcomes[..i];
    }
  }

  lemma ServedOnce(q: bytes, callback: (nat, bytes) -> Outcome, k: nat)
    requires IsFrame(q) && WellFramed(callback(k, q))
    ensures ReadReply(Served(q, false, callback, k)) == Read(AnswerOf(callback(k, q)), [])
  {
    hide WellFramed, IsFrame, ReplyOf, AnswerOf, ReadReply;
    var o := callback(k, q);
    assert q + [] == q && ReplyOf(o) + [] == ReplyOf(o);
    ReadFrameExact(q, q, []);
    ReplyReadsBack(o, []);
  }

  /** Without persistence each call reads the reply on its own connection. */
  lemma {:induction false} OneShotSession(queue: seq<bytes>, callback: (nat, bytes) -> Outcome,
                                          supply: seq<Option<bytes>>, k: nat)
    requires |supply| == |queue|
    requires forall i | 0 <= i < |queue| :: IsFrame(queue[i]) && WellFramed(callback(k + i, queue[i]))
    requires forall i | 0 <= i < |queue| :: supply[i] == Some(Served(queue[i], false, callback, k + i))
    ensures Session(queue, false, None, supply) == Answers(Outcomes(queue, callback, k))
    decreases |queue|
  {
    hide WellFramed, IsFrame, AnswerOf, ReadReply, Served;
    if queue != [] {
      var q, o := queue[0], callback(k + 0, queue[0]);
      ServedOnce(q, callback, k);
      forall i | 0 <= i < |queue| - 1
        ensures IsFrame(queue[1..][i]) && WellFramed(callback(k + 1 + i, queue[1..][i]))
        ensures supply[1..][i] == Some(Served(queue[1..][i], false, callback, k + 1 + i))
      {
        assert callback(k + 1 + i, queue[1..][i]) == callback(k + (i + 1), queue[i + 1]);
      }
      OneShotSession(queue[1..], callback, supply[1..], k + 1);
      assert Outcomes(queue, callback, k) == [o] + Outcomes(queue[1..], callback, k + 1);
      assert Answers(Outcomes(queue, callback, k)) == [AnswerOf(o)] + Answers(Outcomes(queue[1..], callback, k + 1));
    }
  }

  // ---------------------------------------------------------------- The handshakes

  datatype Accepted = Probed | Serving(persistent: bool)

  datatype ProviderError = ReadFailed | UnknownRequestKind | Incompatible(mismatch: Mismatch)

  /** What a server makes of a request's header. */
  function Verdict(service: ServiceSpec, frame: bytes): Result<Accepted, ProviderError> {
    match Classify(frame)
    case ProbeCheck(_) => Ok(Probed)
    case UnknownRequest => Err(UnknownRequestKind)
    case ClientHandshake(h) =>
      ClassifiedKinds(frame);
      match ValidateClient(service, h)
      case Ok(_) => Ok(Serving(h.persistent))
      case Err(m) => Err(Incompatible(m))
  }

  /** A client is served exactly if its md5 sum and its type each go with the service's, with the persistence
      it asks for; otherwise it is refused for the first that does not. What is no client header is a probe
      if it reads as one, and refused otherwise. */
  lemma VerdictExact(service: ServiceSpec, frame: bytes)
    ensures match FromWire(ServiceClientKind, frame)
            case Ok(h) =>
              && h.ServiceClient?
              && Verdict(service, frame) ==
                 (if !AreFieldsCompatible(service.md5sum, h.md5sum) then
                    Err(Incompatible(Md5Mismatch(service.md5sum, h.md5sum)))
                  else if !AreFieldsCompatible(service.msgType, h.msgType) then
                    Err(Incompatible(TypeMismatch(service.msgType, h.msgType)))
                  else Ok(Serving(h.persistent)))
            case Err(_) =>
              Verdict(service, frame) ==
                if FromWire(ProbeRequestKind, frame).Ok? then Ok(Probed) else Err(UnknownRequestKind)
  {
    hide FromWire;
    ClassifiedKinds(frame);
  }

  /** So over the wire: every client header is judged by its own fields, and every probe is a probe. */
  lemma VerdictOnWire(service: ServiceSpec, client: Header, probe: Header)
    requires client.ServiceClient? && probe.ProbeRequest? && Short(client) && Short(probe)
    ensures Verdict(service, ToWire(client)) == Ok(Serving(client.persistent)) <==>
            AreFieldsCompatible(service.md5sum, client.md5sum) && AreFieldsCompatible(service.msgType, client.msgType)
    ensures Verdict(service, ToWire(client)).Ok? ==> Verdict(service, ToWire(client)) == Ok(Serving(client.persistent))
    ensures Verdict(service, ToWire(client)).Err? ==> Verdict(service, ToWire(client)).error.Incompatible?
    ensures Verdict(service, ToWire(probe)) == Ok(Probed)
  {
    hide FromWire, ToWire, AreFieldsCompatible, Verdict, ValidateClient;
    HeaderRoundTrip(client);
    EncodedRequestsClassified(client, probe);
    VerdictExact(service, ToWire(client));
    assert Verdict(service, ToWire(probe)) == Ok(Probed) by { ProbesArePassed(service, ToWire(probe), probe); }
  }

  lemma ProbesArePassed(service: ServiceSpec, frame: bytes, probe: Header)
    requires Classify(frame) == ProbeCheck(probe)
    ensures Verdict(service, frame) == Ok(Probed)
  {
  }

  lemma ClassifiedKinds(frame: bytes)
    ensures Classify(frame).ClientHandshake? ==> Classify(frame).header.ServiceClient?
  {
    FromWireKind(ServiceClientKind, frame);
  }

  /** `handle_request`, up to spawning `rpc_task`. */
  method HandleRequest(service: ServiceSpec, probeBytes: bytes, serverBytes: bytes, reader: Reader, writer: Stream)
    returns (r: Result<Accepted, ProviderError>)
    modifies reader, writer
    ensures match ReadFrame(old(reader.arrived))
            case Incomplete => r == Err(ReadFailed)
            case Frame(f, rest) => r == Verdict(service, f) && reader.arrived == rest
    ensures writer.written == old(writer.written) +
                              (if r.Err? then [] else if r.value.Probed? then probeBytes else serverBytes)
  {
    hide ReadFrame, ValidateClient, SchemaOf, HeaderFrom;
    var data := reader.ReadTcprosFrame();
    if data == None {
      return Err(ReadFailed);
    }
    var client := FromWire(ServiceClientKind, data.value);
    if client.Ok? {
      ClassifiedKinds(data.value);
      var verdict := ValidateClient(service, client.value);
      if verdict.Err? {
        return Err(Incompatible(verdict.error));
      }
      writer.WriteAll(serverBytes);
      return Ok(Serving(client.value.persistent));
    }
    var probe := FromWire(ProbeRequestKind, data.value);
    if probe.Err? {
      return Err(UnknownRequestKind);
    }
    writer.WriteAll(probeBytes);
    return Ok(Probed);
  }

  /** What a client makes of the two headers it is sent: the probe's on one connection, then the
      handshake's on another. */
  function ConnectVerdict(service: ServiceSpec, probed: bytes, shaken: bytes): Option<Header> {
    if ProbePassed(service, probed) then HeaderOnStream(ServiceServerKind, shaken) else None
  }

  /** The client goes on to the handshake. */
  predicate ProbePassed(service: ServiceSpec, probed: bytes) {
    match HeaderOnStream(ProbeResponseKind, probed)
    case None => false
    case Some(response) =>
      FromWireKind(ProbeResponseKind, ReadFrame(probed).frame);
      ValidateServer(service, response).Ok?
  }

  /** A probe is passed exactly if its response's md5 sum and type each go with the service's; and then the
      connection is made with whatever server answers the handshake. */
  lemma ConnectExact(service: ServiceSpec, response: Header, server: Header, more: bytes, rest: bytes)
    requires response.ProbeResponse? && server.ServiceServer? && Short(response) && Short(server)
    ensures ProbePassed(service, ToWire(response) + more) <==>
            AreFieldsCompatible(service.md5sum, response.md5sum) && AreFieldsCompatible(service.msgType, response.msgType)
    ensures ConnectVerdict(service, ToWire(response) + more, ToWire(server) + rest) ==
            if ProbePassed(service, ToWire(response) + more) then Some(server) else None
  {
    hide FromWire, ToWire, ReadFrame;
    HeaderInStream(response, more);
    HeaderInStream(server, rest);
  }

  /** What does not read as a probe response, or as a server header, is no connection. */
  lemma NoConnection(service: ServiceSpec, probed: bytes, shaken: bytes)
    ensures HeaderOnStream(ProbeResponseKind, probed) == None ==> !ProbePassed(service, probed)
    ensures !ProbePassed(service, probed) || HeaderOnStream(ServiceServerKind, shaken) == None ==>
              ConnectVerdict(service, probed, shaken) == None
  {
  }

  /** `from_async_read`. */
  function HeaderOnStream(kind: Kind, s: bytes): Option<Header> {
    match ReadFrame(s)
    case Incomplete => None
    case Frame(f, _) => match FromWire(kind, f) case Ok(h) => Some(h) case Err(_) => None
  }

  method FromAsyncRead(kind: Kind, reader: Reader) returns (r: Option<Header>)
    modifies reader
    ensures r == HeaderOnStream(kind, old(reader.arrived))
    ensures reader.arrived == match ReadFrame(old(reader.arrived)) case Frame(_, rest) => rest case Incomplete => []
  {
    hide ReadFrame, FromWire;
    var data := reader.ReadTcprosFrame();
    if data == None {
      return None;
    }
    var h := FromWire(kind, data.value);
    return if h.Ok? then Some(h.value) else None;
  }

  /** `connect_to_service`, once the service's address is known. */
  method ConnectToService(service: ServiceSpec, probeBytes: bytes, clientBytes: bytes,
                          probeReader: Reader, probeWriter: Stream, reader: Reader, writer: Stream)
    returns (r: Option<Header>)
    requires probeReader != reader && probeWriter != writer
    modifies probeReader, probeWriter, reader, writer
    ensures r == ConnectVerdict(service, old(probeReader.arrived), old(reader.arrived))
    ensures probeWriter.written == old(probeWriter.written) + probeBytes
    ensures writer.written == old(writer.written) +
                              (if ProbePassed(service, old(probeReader.arrived)) then clientBytes else [])
    ensures reader.arrived == if !ProbePassed(service, old(probeReader.arrived)) then old(reader.arrived)
                              else match ReadFrame(old(reader.arrived)) case Frame(_, rest) => rest case Incomplete => []
  {
    hide ReadFrame, FromWire, ValidateServer;
    probeWriter.WriteAll(probeBytes);
    var response := FromAsyncRead(ProbeResponseKind, probeReader);
    if response == None {
      return None;
    }
    FromWireKind(ProbeResponseKind, ReadFrame(old(probeReader.arrived)).frame);
    if ValidateServer(service, response.value).Err? {
      return None;
    }
    writer.WriteAll(clientBytes);
    r := FromAsyncRead(ServiceServerKind, reader);
  }

  /** A handshake on the wire: the server's task starts with the client's persistence, the client knows
      the server, and neither stream holds a byte - which is how `Rpc.Fresh` begins. */
  lemma HandshakeLeavesNothing(service: ServiceSpec, client: Header, server: Header, probed: bytes, response: Header)
    requires client.ServiceClient? && server.ServiceServer? && response.ProbeResponse?
    requires Short(client) && Short(server) && Short(response)
    requires ValidateClient(service, client).Ok? && ValidateServer(service, response).Ok?
    requires probed == ToWire(response)
    ensures ReadFrame(ToWire(client)) == Frame(ToWire(client), [])
    ensures Verdict(service, ToWire(client)) == Ok(Serving(client.persistent))
    ensures ReadFrame(ToWire(server)) == Frame(ToWire(server), [])
    ensures ConnectVerdict(service, probed, ToWire(server)) == Some(server)
  {
    hide FromWire, ToWire, ReadFrame, ValidateClient, ValidateServer;
    var none: bytes := [];
    assert ToWire(client) + none == ToWire(client) && ToWire(server) + none == ToWire(server);
    assert ToWire(response) + none == ToWire(response);
    HeaderInStream(client, none);
    HeaderInStream(server, none);
    HeaderInStream(response, none);
  }
}
