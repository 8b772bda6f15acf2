/** The service link's code as runs of `RpcLink`: what a server's task and a client's call do, uninterrupted,
    is a sequence of the machine's steps. */
module RpcRuns {
  import opened Wrappers
  import opened Bytes
  import opened Rpc
  import opened RpcLink
  import opened RpcTasks

  lemma NoSteps(s: State)
    ensures IsRun(s, []) && After(s, []) == s
  {
  }

  /** One turn of a server's loop. */
  lemma ServesOne(s0: State, acts: seq<Action>, i: nat, o: Outcome) returns (more: seq<Action>)
    requires IsRun(s0, acts)
    requires var s := After(s0, acts);
             && ClientOk(s) && i < |s.connections| && s.connections[i].server == Reading
             && ReadFrame(s.connections[i].toServer).Frame?
    ensures IsRun(s0, more)
    ensures var s := After(s0, acts);
            var c, read := s.connections[i], ReadFrame(s.connections[i].toServer);
            After(s0, more) ==
            With(s, i, c.(toServer := read.rest, toClient := c.toClient + ReplyOf(o),
                          handled := c.handled + [Handled(read.frame, o)],
                          server := if s.persistent then Reading else Closed))
  {
    hide IsRun, After, PayloadOf, StatusOf, IsFrame, ReadFrame;
    var c := After(s0, acts).connections[i];
    Extend(s0, acts, ServerServe(i, o));
    Extend(s0, acts + [ServerServe(i, o)], ServerStatus(i));
    Extend(s0, acts + [ServerServe(i, o)] + [ServerStatus(i)], ServerBody(i));
    more := acts + [ServerServe(i, o)] + [ServerStatus(i)] + [ServerBody(i)];
    WrittenWhole(c.toClient, o);
  }

  /** `rpc_task` of a server: its own steps write what the method `ServerTask` writes for what has arrived. */
  lemma {:induction false} ServerTaskIsRun(s0: State, acts: seq<Action>, i: nat, callback: (nat, bytes) -> Outcome, k: nat)
    returns (more: seq<Action>)
    requires IsRun(s0, acts)
    requires var s := After(s0, acts); ClientOk(s) && i < |s.connections| && s.connections[i].server == Reading
    ensures IsRun(s0, more)
    ensures var s, s' := After(s0, acts), After(s0, more);
            && i < |s'.connections| && s' == With(s, i, s'.connections[i])
            && s'.connections[i].toClient ==
               s.connections[i].toClient + Served(s.connections[i].toServer, s.persistent, callback, k)
    decreases |After(s0, acts).connections[i].toServer|
  {
    hide IsRun, After, ReplyOf, IsFrame, ReadFrame;
    var s := After(s0, acts);
    var c := s.connections[i];
    match ReadFrame(c.toServer) {
      case Incomplete =>
        more := acts;
        assert c.toClient + [] == c.toClient;
        assert s.connections[i := c] == s.connections;
      case Frame(f, rest) =>
        ReadFrameExact(c.toServer, f, rest);
        var o := callback(k, f);
        assert |f| > 0 by { FrameIsLong(f); }
        more := ServesOne(s0, acts, i, o);
        var mid := After(s0, more).connections[i];
        Joined(c.toClient, ReplyOf(o), if s.persistent then Served(rest, true, callback, k + 1) else []);
        if s.persistent {
          more := ServerTaskIsRun(s0, more, i, callback, k + 1);
          var last := After(s0, more).connections[i];
          assert s.connections[i := mid][i := last] == s.connections[i := last];
        }
    }
  }

  /** All that will arrive has arrived: a whole reply, or the server has gone. */
  predicate Arrived(c: Connection) {
    || c.server == Closed
    || (c.toClient != [] && ((c.toClient[0] != 0 && c.toClient[0] != 1) || ReadFrame(c.toClient[1..]).Frame?))
  }

  /** A call on a kept connection, as `HandleRpc` says: it is answered with what is read of what arrives, what is
      not read stays, and the connection is kept again exactly if the link is persistent. */
  lemma CallIsRun(s0: State, acts: seq<Action>) returns (more: seq<Action>)
    requires IsRun(s0, acts)
    requires var s := After(s0, acts);
             && s.client == Idle && s.queue != [] && s.kept.Some? && s.kept.value < |s.connections|
             && !s.connections[s.kept.value].broken && Arrived(s.connections[s.kept.value])
    ensures IsRun(s0, more)
    ensures var s := After(s0, acts);
            var at, q := s.kept.value, s.queue[0];
            var c, read := s.connections[at], ReadReply(s.connections[at].toClient);
            After(s0, more) ==
            With(s, at, c.(calls := c.calls + [q], toServer := c.toServer + q, toClient := read.rest,
                           replies := c.replies + [read.answer])).(
              queue := s.queue[1..], kept := if s.persistent then Some(at) else None,
              done := s.done + [Done(q, Some(at), |c.replies|, read.answer)])
  {
    hide IsRun, After, IsFrame, ReadFrame, DecodeText;
    var s := After(s0, acts);
    var at := s.kept.value;
    var c := s.connections[at];
    Extend(s0, acts, Reuse);
    Extend(s0, acts + [Reuse], Write);
    more := acts + [Reuse] + [Write];
    if c.toClient == [] {
      Extend(s0, more, ReadEnd);
      more := more + [ReadEnd];
    } else {
      Extend(s0, more, ReadStatus);
      more := more + [ReadStatus];
      if c.toClient[0] == 0 || c.toClient[0] == 1 {
        var body := if ReadFrame(c.toClient[1..]).Frame? then ReadBody else ReadEnd;
        Extend(s0, more, body);
        more := more + [body];
      }
    }
  }

  /** A call that cannot connect is answered so, and the next call connects anew. */
  lemma NoConnectionIsRun(s0: State, acts: seq<Action>)
    requires IsRun(s0, acts)
    requires var s := After(s0, acts); s.client == Idle && s.queue != [] && s.kept == None
    ensures IsRun(s0, acts + [ConnectFail])
    ensures var s, s' := After(s0, acts), After(s0, acts + [ConnectFail]);
            && s' == s.(queue := s.queue[1..], done := s'.done)
            && s'.done == s.done + [Done(s.queue[0], None, 0, NotConnected)]
  {
    hide IsRun, After;
    Extend(s0, acts, ConnectFail);
  }

  /** A server stopped while it writes a well-framed reply has written the beginning of it, and the call that
      waits for the rest ends with an I/O error and leaves nothing to read. */
  lemma CutShort(s0: State, acts: seq<Action>, k: nat)
    requires IsRun(s0, acts)
    requires var s := After(s0, acts);
             && s.client.Calling? && s.client.at < |s.connections| && s.client.phase.AwaitBody?
             && var c := s.connections[s.client.at];
                && !c.broken && c.toClient == [] && c.server.AtBody? && WellFramed(c.server.outcome)
                && k < |PayloadOf(c.server.outcome)|
    ensures var s, at := After(s0, acts), After(s0, acts).client.at;
            var c := s.connections[at];
            var stopped := acts + [ServerStop(at, k)];
            && IsRun(s0, stopped) && IsRun(s0, stopped + [ReadEnd])
            && After(s0, stopped) == With(s, at, c.(server := Closed, toClient := PayloadOf(c.server.outcome)[..k]))
            && After(s0, stopped + [ReadEnd]) ==
               Finish(With(s, at, c.(server := Closed)), c.(server := Closed), Io)
  {
    hide IsRun, After, IsFrame, ReadFrame, PayloadOf, WellFramed;
    var s, at := After(s0, acts), After(s0, acts).client.at;
    var c := s.connections[at];
    var p := PayloadOf(c.server.outcome);
    Extend(s0, acts, ServerStop(at, k));
    PayloadExact(c.server.outcome);
    assert c.toClient + p[..k] == p[..k];
    if ReadFrame(p[..k]).Frame? {
      PrefixFrame(p[..k], p);
      assert false;
    }
    Extend(s0, acts + [ServerStop(at, k)], ReadEnd);
  }

  /** A connection may break with any part of the request sent: the call ends with an I/O error. */
  lemma BrokenMidway(s0: State, acts: seq<Action>, k: nat)
    requires IsRun(s0, acts)
    requires var s := After(s0, acts);
             && s.client.Calling? && s.client.at < |s.connections| && s.client.phase == Sending
             && k <= |s.client.request|
    ensures IsRun(s0, acts + [Break(k)])
    ensures var s, s' := After(s0, acts), After(s0, acts + [Break(k)]);
            var at, c := s.client.at, s.connections[s.client.at];
            && s'.client == Idle && |s'.connections| == |s.connections|
            && s'.connections[at].broken && s'.connections[at].toServer == c.toServer + s.client.request[..k]
            && s'.done == s.done + [Done(s.client.request, Some(at), |c.replies|, Io)]
  {
    hide IsRun, After;
    Extend(s0, acts, Break(k));
  }
}
