/** A publication and a subscription joined by sockets: what a handle yields, compared with what the
    publisher sent. A subscriber task may be linked to one of the publication's connections, and then
    receives exactly the frames read from it; tasks of other publishers receive anything. */
module EndToEnd {
  import opened Bytes
  import opened Broadcast
  import P = Publication
  import S = Subscription

  datatype State = State(pub: P.State, sub: S.State, links: map<nat, nat>)

  datatype Action =
    | Publisher(pa: P.Action)
    | Subscriber(sa: S.Action)
    | Link(t: nat, c: nat)
    | Transfer(t: nat)

  predicate Unread(k: P.Conn) {
    k.parsed == []
  }

  ghost predicate Enabled(s: State, a: Action) {
    match a
    case Publisher(pa) => P.Enabled(s.pub, pa) && (pa.Read? ==> pa.c !in s.links.Values)
    case Subscriber(sa) => S.Enabled(s.sub, sa) && (sa.TaskReceive? ==> sa.t !in s.links)
    case Link(t, c) =>
      && t < |s.sub.tasks| && t !in s.links && s.sub.tasks[t].received == []
      && c < |s.pub.conns| && c !in s.links.Values && Unread(s.pub.conns[c])
    case Transfer(t) =>
      && t in s.links && P.Enabled(s.pub, P.Read(s.links[t]))
      && S.Enabled(s.sub, S.TaskReceive(t, ReadFrame(s.pub.conns[s.links[t]].wire).frame))
  }

  ghost function Apply(s: State, a: Action): State
    requires Enabled(s, a)
  {
    match a
    case Publisher(pa) => s.(pub := P.Apply(s.pub, pa))
    case Subscriber(sa) => s.(sub := S.Apply(s.sub, sa))
    case Link(t, c) => s.(links := s.links[t := c])
    case Transfer(t) =>
      var c := s.links[t];
      s.(sub := S.Apply(s.sub, S.TaskReceive(t, ReadFrame(s.pub.conns[c].wire).frame)),
         pub := P.Apply(s.pub, P.Read(c)))
  }

  ghost predicate IsRun(s: State, acts: seq<Action>)
    decreases |acts|
  {
    acts == [] || (Enabled(s, acts[0]) && IsRun(Apply(s, acts[0]), acts[1..]))
  }

  ghost function After(s: State, acts: seq<Action>): State
    requires IsRun(s, acts)
    decreases |acts|
  {
    if acts == [] then s else After(Apply(s, acts[0]), acts[1..])
  }

  function Init(pubCapacity: nat, latching: bool, subCapacity: nat): State {
    State(P.Init(pubCapacity, latching), S.Init(subCapacity), map[])
  }

  /** A linked task has received what was read from its connection, and from no other. */
  ghost predicate Linked(s: State) {
    && (forall t | t in s.links :: t < |s.sub.tasks| && s.links[t] < |s.pub.conns|
          && s.sub.tasks[t].received == s.pub.conns[s.links[t]].parsed)
    && (forall t, u | t in s.links && u in s.links && t != u :: s.links[t] != s.links[u])
  }

  ghost predicate Inv(s: State) {
    P.Inv(s.pub) && S.Inv(s.sub) && Linked(s)
  }

  lemma PublisherKeepsParsed(s: P.State, a: P.Action)
    requires P.Enabled(s, a)
    ensures var s' := P.Apply(s, a);
            |s'.conns| >= |s.conns| &&
            forall c | 0 <= c < |s.conns| && a != P.Read(c) :: s'.conns[c].parsed == s.conns[c].parsed
  {
  }

  lemma SubscriberKeepsReceived(s: S.State, a: S.Action)
    requires S.Enabled(s, a)
    ensures var s' := S.Apply(s, a);
            |s'.tasks| >= |s.tasks| &&
            forall t | 0 <= t < |s.tasks| && !(a.TaskReceive? && a.t == t) :: s'.tasks[t].received == s.tasks[t].received
  {
  }

  lemma LinkedStep(s: State, a: Action)
    requires Linked(s) && Enabled(s, a)
    ensures Linked(Apply(s, a))
  {
    match a
    case Publisher(pa) =>
      PublisherKeepsParsed(s.pub, pa);
      hide P.Apply, P.Enabled;
      forall t | t in s.links ensures pa != P.Read(s.links[t]) {
        assert s.links[t] in s.links.Values;
      }
    case Subscriber(sa) =>
      SubscriberKeepsReceived(s.sub, sa);
      hide S.Apply, S.Enabled;
    case Link(t, c) =>
      forall u | u in s.links ensures s.links[u] != c {
        assert s.links[u] in s.links.Values;
      }
    case Transfer(t) =>
      TransferKeepsLinked(s, t);
  }

  lemma TransferKeepsLinked(s: State, t: nat)
    requires Linked(s) && Enabled(s, Transfer(t))
    ensures Linked(Apply(s, Transfer(t)))
  {
    var c := s.links[t];
    var frame := ReadFrame(s.pub.conns[c].wire).frame;
    var s' := Apply(s, Transfer(t));
    PublisherKeepsParsed(s.pub, P.Read(c));
    SubscriberKeepsReceived(s.sub, S.TaskReceive(t, frame));
    assert s'.pub.conns[c].parsed == s.pub.conns[c].parsed + [frame];
    assert s'.sub.tasks[t].received == s.sub.tasks[t].received + [frame];
  }

  lemma PublisherInvStep(s: State, a: Action)
    requires P.Inv(s.pub) && Enabled(s, a)
    ensures P.Inv(Apply(s, a).pub)
  {
    hide P.Inv, P.Apply, P.Enabled, S.Apply, S.Enabled, ReadFrame;
    match a
    case Publisher(pa) => P.InvStep(s.pub, pa);
    case Transfer(t) => P.InvStep(s.pub, P.Read(s.links[t]));
    case _ =>
  }

  lemma SubscriberInvStep(s: State, a: Action)
    requires S.Inv(s.sub) && Enabled(s, a)
    ensures S.Inv(Apply(s, a).sub)
  {
    hide S.Inv, P.Apply, S.Apply, S.Enabled, ReadFrame;
    match a
    case Subscriber(sa) => S.InvStep(s.sub, sa);
    case Transfer(t) => S.InvStep(s.sub, S.TaskReceive(t, ReadFrame(s.pub.conns[s.links[t]].wire).frame));
    case _ =>
  }

  lemma InvStep(s: State, a: Action)
    requires Inv(s) && Enabled(s, a)
    ensures Inv(Apply(s, a))
  {
    hide Linked, P.Inv, S.Inv, Apply, Enabled;
    LinkedStep(s, a);
    PublisherInvStep(s, a);
    SubscriberInvStep(s, a);
  }

  lemma {:induction false} RunInv(s: State, acts: seq<Action>)
    requires Inv(s) && IsRun(s, acts)
    ensures Inv(After(s, acts))
    decreases |acts|
  {
    hide Inv, Apply, Enabled;
    if acts != [] {
      InvStep(s, acts[0]);
      RunInv(Apply(s, acts[0]), acts[1..]);
    }
  }

  // ---------------------------------------------------------------- What a handle yields from one publisher

  /** The indices, among what task `t` received, of those of the given forwarded frames that are its. */
  function IndicesFrom(forward: seq<S.Forwarded>, ps: seq<nat>, t: nat): seq<nat> {
    if ps == [] then []
    else
      var p := ps[|ps| - 1];
      IndicesFrom(forward, ps[..|ps| - 1], t) +
        if p < |forward| && forward[p].task == t then [forward[p].index] else []
  }

  /** The frames themselves. */
  function FramesFrom(forward: seq<S.Forwarded>, ps: seq<nat>, t: nat): seq<bytes> {
    if ps == [] then []
    else
      var p := ps[|ps| - 1];
      FramesFrom(forward, ps[..|ps| - 1], t) +
        if p < |forward| && forward[p].task == t then [forward[p].frame] else []
  }

  predicate At(s: S.State, p: nat, t: nat, k: nat) {
    p < |s.forward| && s.forward[p].task == t && s.forward[p].index == k
  }

  /** Every index collected belongs to one of the frames. */
  lemma {:induction false} IndicesCome(s: S.State, ps: seq<nat>, t: nat)
    ensures forall k | k in IndicesFrom(s.forward, ps, t) :: exists p :: p in ps && At(s, p, t, k)
  {
    if ps != [] {
      var n := |ps| - 1;
      IndicesCome(s, ps[..n], t);
      forall k | k in IndicesFrom(s.forward, ps, t) ensures exists p :: p in ps && At(s, p, t, k) {
        if k in IndicesFrom(s.forward, ps[..n], t) {
          var p :| p in ps[..n] && At(s, p, t, k);
          assert p in ps;
        } else {
          assert At(s, ps[n], t, k);
        }
      }
    }
  }

  lemma OnceInOrderPrefix(s: S.State, ps: seq<nat>)
    requires S.OnceInOrder(s, ps) && ps != []
    ensures S.OnceInOrder(s, ps[..|ps| - 1])
    ensures var last := ps[|ps| - 1];
            forall p | p in ps[..|ps| - 1] :: p < |s.forward| && last < |s.forward|
              && (s.forward[p].task == s.forward[last].task ==> s.forward[p].index < s.forward[last].index)
  {
  }

  /** What a handle yields from one publisher connection: frames it received, at increasing places. */
  lemma {:induction false} IndicesIncrease(s: S.State, ps: seq<nat>, t: nat)
    requires S.IndexesOk(s) && S.OnceInOrder(s, ps) && t < |s.tasks|
    ensures var ks := IndicesFrom(s.forward, ps, t);
            && Increasing(ks)
            && (forall k | k in ks :: k < |s.tasks[t].received|)
            && FramesFrom(s.forward, ps, t) == Messages(s.tasks[t].received, ks)
  {
    if ps != [] {
      var n := |ps| - 1;
      var p := ps[n];
      OnceInOrderPrefix(s, ps);
      IndicesIncrease(s, ps[..n], t);
      var ks := IndicesFrom(s.forward, ps[..n], t);
      assert S.Known(s, p);
      if s.forward[p].task == t {
        var i := s.forward[p].index;
        IndicesCome(s, ps[..n], t);
        forall j | 0 <= j < |ks| ensures ks[j] < i {
          assert ks[j] in ks;
          var q :| q in ps[..n] && At(s, q, t, ks[j]);
        }
        MessagesSnoc(s.tasks[t].received, ks, i);
      }
    }
  }

  lemma MessagesOfMessages(log: seq<bytes>, sent: seq<nat>, parsed: seq<bytes>, ks: seq<nat>) returns (qs: seq<nat>)
    requires |parsed| <= |sent| && parsed == Messages(log, sent[..|parsed|])
    requires Increasing(sent) && Increasing(ks) && forall k | k in ks :: k < |parsed|
    ensures Increasing(qs) && |qs| == |ks| && Messages(parsed, ks) == Messages(log, qs)
    ensures forall i | 0 <= i < |ks| :: ks[i] < |sent| && qs[i] == sent[ks[i]]
  {
    assert forall i | 0 <= i < |ks| :: ks[i] in ks;
    qs := seq(|ks|, i requires 0 <= i < |ks| => sent[ks[i]]);
    forall i | 0 <= i < |ks| ensures Messages(parsed, ks)[i] == Messages(log, qs)[i] {
      assert parsed[ks[i]] == Messages(log, sent[..|parsed|])[ks[i]];
      assert sent[..|parsed|][ks[i]] == sent[ks[i]];
    }
  }

  /** End to end: in every reachable state, what any handle has yielded from a linked publisher is the
      publisher's messages at strictly increasing positions of its send log, all of them positions its
      connection task wrote - so nothing is duplicated, reordered or invented on the way - provided that
      what the task wrote are frames. */
  lemma HandleYieldsSends(pubCapacity: nat, latching: bool, subCapacity: nat, acts: seq<Action>, h: nat, t: nat)
    requires pubCapacity > 0 && IsRun(Init(pubCapacity, latching, subCapacity), acts)
    requires var s := After(Init(pubCapacity, latching, subCapacity), acts);
             && h < |s.sub.handles| && t in s.links && s.links[t] < |s.pub.conns|
             && P.SentFrames(s.pub.conns[s.links[t]], s.pub.log)
    ensures var s := After(Init(pubCapacity, latching, subCapacity), acts);
            && t in s.links && s.links[t] < |s.pub.conns| && s.sub.handles[h].taken <= |s.sub.handles[h].latched|
            && exists qs :: Increasing(qs)
                 && FramesFrom(s.sub.forward, S.Yielded(s.sub.handles[h]), t) == Messages(s.pub.log, qs)
                 && forall q | q in qs :: q in s.pub.conns[s.links[t]].sent
  {
    var s0 := Init(pubCapacity, latching, subCapacity);
    S.InitOk(subCapacity);
    RunInv(s0, acts);
    var s := After(s0, acts);
    ReachedHandleYieldsSends(s, h, t);
  }

  lemma ReachedHandleYieldsSends(s: State, h: nat, t: nat)
    requires Inv(s) && h < |s.sub.handles| && t in s.links && P.SentFrames(s.pub.conns[s.links[t]], s.pub.log)
    ensures s.links[t] < |s.pub.conns| && s.sub.handles[h].taken <= |s.sub.handles[h].latched|
    ensures exists qs :: Increasing(qs)
              && FramesFrom(s.sub.forward, S.Yielded(s.sub.handles[h]), t) == Messages(s.pub.log, qs)
              && forall q | q in qs :: q in s.pub.conns[s.links[t]].sent
  {
    var handle := s.sub.handles[h];
    var k := s.pub.conns[s.links[t]];
    assert S.HandleOk(s.sub, handle) && P.ConnOk(k, s.pub.log, s.pub.capacity);
    S.YieldedInOrder(s.sub, handle);
    var ps := S.Yielded(handle);
    IndicesIncrease(s.sub, ps, t);
    P.ParsedIsPrefix(k, s.pub.log, s.pub.capacity);
    SentIncreases(k, s.pub.log, s.pub.capacity);
    var qs := MessagesOfMessages(s.pub.log, k.sent, k.parsed, IndicesFrom(s.sub.forward, ps, t));
  }

  lemma SentIncreases(k: P.Conn, log: seq<bytes>, capacity: nat)
    requires P.ConnOk(k, log, capacity)
    ensures Increasing(k.sent)
  {
  }

  // ---------------------------------------------------------------- Nothing missing

  lemma {:induction false} FramesFromConcat(forward: seq<S.Forwarded>, ps: seq<nat>, qs: seq<nat>, t: nat)
    ensures FramesFrom(forward, ps + qs, t) == FramesFrom(forward, ps, t) + FramesFrom(forward, qs, t)
  {
    if qs == [] {
      assert ps + qs == ps;
    } else {
      FramesFromConcat(forward, ps, qs[..|qs| - 1], t);
      assert (ps + qs)[..|ps + qs| - 1] == ps + qs[..|qs| - 1];
    }
  }

  /** A contiguous stretch of the log has the frames that are in it. */
  lemma {:induction false} FramesFromStretch(forward: seq<S.Forwarded>, join: nat, ps: seq<nat>, t: nat)
    requires join + |ps| <= |forward| && forall i | 0 <= i < |ps| :: ps[i] == join + i
    ensures S.FramesOf(forward[..join + |ps|], t) == S.FramesOf(forward[..join], t) + FramesFrom(forward, ps, t)
  {
    if ps != [] {
      var n := |ps| - 1;
      FramesFromStretch(forward, join, ps[..n], t);
      assert forward[..join + |ps|][..join + n] == forward[..join + n];
    }
  }

  /** Frames at positions before `join` are among those forwarded before it. */
  lemma {:induction false} FramesFromBefore(forward: seq<S.Forwarded>, ps: seq<nat>, join: nat, t: nat)
    requires join <= |forward| && forall i | 0 <= i < |ps| :: ps[i] < join
    ensures forall f | f in FramesFrom(forward, ps, t) :: f in S.FramesOf(forward[..join], t)
  {
    if ps != [] {
      FramesFromBefore(forward, ps[..|ps| - 1], join, t);
      FrameAmong(forward[..join], ps[|ps| - 1]);
    }
  }

  lemma {:induction false} FrameAmong(forward: seq<S.Forwarded>, p: nat)
    requires p < |forward|
    ensures forward[p].frame in S.FramesOf(forward, forward[p].task)
  {
    if p < |forward| - 1 {
      FrameAmong(forward[..|forward| - 1], p);
    }
  }

  /** Of frames of different publishers, at most one is the task's. */
  lemma {:induction false} AtMostOne(s: S.State, ps: seq<nat>, end: nat, t: nat)
    requires S.OnePerCaller(s, ps, end)
    ensures |FramesFrom(s.forward, ps, t)| <= 1
    ensures (forall i | 0 <= i < |ps| :: s.forward[ps[i]].task != t) ==> FramesFrom(s.forward, ps, t) == []
  {
    if ps != [] {
      var n := |ps| - 1;
      AtMostOne(s, ps[..n], end, t);
      if s.forward[ps[n]].task == t {
        assert forall i | 0 <= i < n :: S.CallerOf(s, ps[i]) != S.CallerOf(s, ps[n]);
      }
    }
  }

  /** The handle has yielded its latched frames, never lagged and has caught up. */
  predicate HandleCaughtUp(s: S.State, handle: S.Handle) {
    handle.taken == |handle.latched| && !handle.lagged && handle.cursor == |s.forward|
  }

  /** The connection's task never lagged, has caught up, and has nothing in flight. */
  predicate ConnCaughtUp(s: P.State, k: P.Conn) {
    !P.Fresh(k) && !k.lagged && k.cursor == |s.log| && k.wire == [] && k.out == []
  }

  /** What the connection was to deliver: the latched message it was handed, and all sent since its join. */
  function Due(s: P.State, k: P.Conn): seq<bytes>
    requires k.join <= |s.log|
  {
    Messages(s.log, P.LatchPart(k)) + s.log[k.join..]
  }

  /** How many of a task's frames had been forwarded when the handle's receiver was made. */
  function Missed(s: S.State, handle: S.Handle, t: nat): nat
    requires handle.join <= |s.forward|
  {
    |S.FramesOf(s.forward[..handle.join], t)|
  }

  /** And nothing is missing: once a handle, early or late, and a connection whose messages are frames have
      caught up without lag, the handle has yielded from that publisher at most one latched frame - one of
      those delivered before the handle's receiver was made - and then every message due after those. A
      handle made before all of them has yielded the whole of what was due. */
  lemma EverythingArrives(pubCapacity: nat, latching: bool, subCapacity: nat, acts: seq<Action>, h: nat, t: nat)
    requires pubCapacity > 0 && IsRun(Init(pubCapacity, latching, subCapacity), acts)
    requires var s := After(Init(pubCapacity, latching, subCapacity), acts);
             && h < |s.sub.handles| && HandleCaughtUp(s.sub, s.sub.handles[h])
             && t in s.links && s.links[t] < |s.pub.conns| && ConnCaughtUp(s.pub, s.pub.conns[s.links[t]])
             && P.SentFrames(s.pub.conns[s.links[t]], s.pub.log)
    ensures var s := After(Init(pubCapacity, latching, subCapacity), acts);
            YieldsWhatIsDue(s, h, t)
  {
    var s0 := Init(pubCapacity, latching, subCapacity);
    S.InitOk(subCapacity);
    RunInv(s0, acts);
    var s := After(s0, acts);
    CaughtUpYieldsAll(s, h, t);
  }

  predicate YieldsWhatIsDue(s: State, h: nat, t: nat)
    requires h < |s.sub.handles| && t in s.links && s.links[t] < |s.pub.conns|
  {
    var handle, k := s.sub.handles[h], s.pub.conns[s.links[t]];
    && k.join <= |s.pub.log| && handle.taken <= |handle.latched| && handle.join <= |s.sub.forward|
    && var due, n := Due(s.pub, k), Missed(s.sub, handle, t);
       var latched := FramesFrom(s.sub.forward, handle.latched, t);
       && n <= |due| && |latched| <= 1 && (forall f | f in latched :: f in due[..n])
       && FramesFrom(s.sub.forward, S.Yielded(handle), t) == latched + due[n..]
       && (n == 0 ==> FramesFrom(s.sub.forward, S.Yielded(handle), t) == due)
  }

  lemma CaughtUpYieldsAll(s: State, h: nat, t: nat)
    requires Inv(s) && h < |s.sub.handles| && t in s.links && s.links[t] < |s.pub.conns|
    requires HandleCaughtUp(s.sub, s.sub.handles[h]) && ConnCaughtUp(s.pub, s.pub.conns[s.links[t]])
    requires P.SentFrames(s.pub.conns[s.links[t]], s.pub.log)
    ensures YieldsWhatIsDue(s, h, t)
  {
    hide P.Inv, S.Inv, FramesFrom, Due, Missed, S.Yielded, P.SentFrames, HandleCaughtUp, ConnCaughtUp;
    LinkedParts(s, h, t);
    YieldedAll(s.sub, s.sub.handles[h], t);
    ParsedIsDue(s.pub, s.pub.conns[s.links[t]]);
    NoneLatchedBefore(s.sub, s.sub.handles[h], t);
  }

  lemma LinkedParts(s: State, h: nat, t: nat)
    requires Inv(s) && h < |s.sub.handles| && t in s.links
    ensures t < |s.sub.tasks| && s.links[t] < |s.pub.conns|
    ensures s.sub.tasks[t].received == s.pub.conns[s.links[t]].parsed
    ensures S.ForwardOk(s.sub) && S.HandleOk(s.sub, s.sub.handles[h])
    ensures s.sub.handles[h].taken <= |s.sub.handles[h].latched|
    ensures P.ConnOk(s.pub.conns[s.links[t]], s.pub.log, s.pub.capacity)
  {
  }

  lemma ParsedIsDue(s: P.State, k: P.Conn)
    requires P.ConnOk(k, s.log, s.capacity) && ConnCaughtUp(s, k) && P.SentFrames(k, s.log)
    ensures k.join <= |s.log| && k.parsed == Due(s, k)
  {
    hide P.ConnOk, P.SentFrames;
    P.ParsedIsPrefix(k, s.log, s.capacity);
    SentAll(k, s.log, s.capacity);
  }

  /** A handle with nothing of the task's forwarded before it has nothing of it latched. */
  lemma NoneLatchedBefore(s: S.State, handle: S.Handle, t: nat)
    requires handle.join <= |s.forward| && t < |s.tasks| && Missed(s, handle, t) <= |s.tasks[t].received|
    requires forall f | f in FramesFrom(s.forward, handle.latched, t) :: f in s.tasks[t].received[..Missed(s, handle, t)]
    ensures Missed(s, handle, t) == 0 ==> FramesFrom(s.forward, handle.latched, t) == []
  {
    var latched := FramesFrom(s.forward, handle.latched, t);
    if latched != [] {
      assert latched[0] in latched;
    }
  }

  lemma LiveAll(s: S.State, handle: S.Handle)
    requires S.HandleOk(s, handle)
    requires HandleCaughtUp(s, handle)
    ensures handle.join + |handle.live| == |s.forward|
    ensures forall i | 0 <= i < |handle.live| :: handle.live[i] == handle.join + i
    ensures S.OnePerCaller(s, handle.latched, handle.join)
    ensures forall i | 0 <= i < |handle.latched| :: handle.latched[i] < handle.join
  {
  }

  lemma YieldedAll(s: S.State, handle: S.Handle, t: nat)
    requires S.ForwardOk(s) && S.HandleOk(s, handle) && t < |s.tasks|
    requires HandleCaughtUp(s, handle)
    ensures handle.join <= |s.forward|
    ensures var received, n := s.tasks[t].received, Missed(s, handle, t);
            var latched := FramesFrom(s.forward, handle.latched, t);
            && n <= |received| && |latched| <= 1 && (forall f | f in latched :: f in received[..n])
            && FramesFrom(s.forward, S.Yielded(handle), t) == latched + received[n..]
  {
    hide S.HandleOk, S.ForwardOk, S.FramesOf, FramesFrom, S.OnePerCaller;
    LiveAll(s, handle);
    ForwardedAll(s, t);
    LivePart(s.forward, handle.join, handle.live, t);
    AtMostOne(s, handle.latched, handle.join, t);
    FramesFromBefore(s.forward, handle.latched, handle.join, t);
    assert S.Yielded(handle) == handle.latched + handle.live;
    FramesFromConcat(s.forward, handle.latched, handle.live, t);
  }

  lemma LivePart(forward: seq<S.Forwarded>, join: nat, live: seq<nat>, t: nat)
    requires join + |live| == |forward| && forall i | 0 <= i < |live| :: live[i] == join + i
    ensures var all, n := S.FramesOf(forward, t), |S.FramesOf(forward[..join], t)|;
            n <= |all| && all[..n] == S.FramesOf(forward[..join], t) && all[n..] == FramesFrom(forward, live, t)
  {
    hide S.FramesOf, FramesFrom;
    FramesFromStretch(forward, join, live, t);
    assert forward[..join + |live|] == forward;
  }

  lemma ForwardedAll(s: S.State, t: nat)
    requires S.ForwardOk(s) && t < |s.tasks|
    ensures S.Ranked(s.forward) && S.FramesOf(s.forward, t) == s.tasks[t].received
    ensures forall p | 0 <= p < |s.forward| && s.forward[p].task == t ::
              s.forward[p].index < |s.tasks[t].received| && s.forward[p].frame == s.tasks[t].received[s.forward[p].index]
  {
    hide S.FramesOf, S.Ranked;
  }

  lemma SentBlock(k: P.Conn, log: seq<bytes>, capacity: nat)
    requires P.ConnOk(k, log, capacity) && !P.Fresh(k) && !k.lagged && k.cursor == |log|
    ensures var l := |P.LatchPart(k)|;
            && k.join <= |log| && |k.sent| == l + (|log| - k.join) && k.sent[..l] == P.LatchPart(k)
            && forall i | l <= i < |k.sent| :: k.sent[i] == k.join + (i - l)
  {
  }

  lemma SentAll(k: P.Conn, log: seq<bytes>, capacity: nat)
    requires P.ConnOk(k, log, capacity) && !P.Fresh(k) && !k.lagged && k.cursor == |log|
    ensures k.join <= |log| && Messages(log, k.sent) == Messages(log, P.LatchPart(k)) + log[k.join..]
  {
    SentBlock(k, log, capacity);
    hide P.ConnOk, P.Shape;
    var l := |P.LatchPart(k)|;
    forall i | 0 <= i < |k.sent|
      ensures Messages(log, k.sent)[i] == (Messages(log, P.LatchPart(k)) + log[k.join..])[i]
    {
      if i < l {
        assert k.sent[i] == k.sent[..l][i];
      } else {
        assert k.sent[i] == k.join + (i - l);
      }
    }
  }

  // ---------------------------------------------------------------- What is missing, and why

  /** Every frame a task received is in the forwarding log. */
  lemma {:induction false} IndexFound(forward: seq<S.Forwarded>, n: nat, t: nat, i: nat)
    requires S.Ranked(forward) && n <= |forward| && i < |S.FramesOf(forward[..n], t)|
    ensures exists p :: 0 <= p < n && forward[p].task == t && forward[p].index == i
  {
    var before := forward[..n - 1];
    assert forward[..n][..n - 1] == before;
    if i < |S.FramesOf(before, t)| {
      IndexFound(forward, n - 1, t, i);
    } else {
      assert forward[n - 1].task == t && forward[n - 1].index == i;
    }
  }

  /** The forwarded frame at `p` is the message at position `q` of the send log, come by connection `k`. */
  predicate Carries(s: State, k: P.Conn, t: nat, p: nat, q: nat) {
    && p < |s.sub.forward| && s.sub.forward[p].task == t && s.sub.forward[p].index < |k.sent|
    && k.sent[s.sub.forward[p].index] == q && q < |s.pub.log| && s.sub.forward[p].frame == s.pub.log[q]
  }

  /** The publisher's task was to write it, has not, and `capacity` newer ones had been sent by now. */
  predicate PushedOutAtPublisher(s: State, k: P.Conn, q: nat) {
    q !in k.sent && q < k.cursor && q + s.pub.capacity < |s.pub.log|
  }

  /** The task has not come to it, or the subscriber has not read it. */
  predicate NotReadYet(k: P.Conn, q: nat) {
    (q !in k.sent && q >= k.cursor) || exists i :: |k.parsed| <= i < |k.sent| && k.sent[i] == q
  }

  /** Forwarded, and then yielded, or older than the handle's receiver, or still before it, or pushed out by
      `capacity` newer ones. */
  predicate ForwardedTo(s: State, handle: S.Handle, p: nat)
    requires handle.taken <= |handle.latched|
  {
    || p in S.Yielded(handle)
    || p < handle.join
    || p >= handle.cursor
    || p + s.sub.capacity < |s.sub.forward|
  }

  /** With lag too, nothing goes missing but what the two channels push out: in every reachable state, a
      message a connection was handed as latched, or that was sent since it joined, is accounted for at
      every handle in one of these ways - whether or not anything lagged. */
  lemma MissingWasPushedOut(pubCapacity: nat, latching: bool, subCapacity: nat, acts: seq<Action>, h: nat, t: nat, q: nat)
    requires pubCapacity > 0 && IsRun(Init(pubCapacity, latching, subCapacity), acts)
    requires var s := After(Init(pubCapacity, latching, subCapacity), acts);
             && h < |s.sub.handles| && t in s.links && s.links[t] < |s.pub.conns|
             && var k := s.pub.conns[s.links[t]];
                P.SentFrames(k, s.pub.log) && (q in k.sent || k.join <= q < |s.pub.log|)
    ensures var s := After(Init(pubCapacity, latching, subCapacity), acts);
            var handle, k := s.sub.handles[h], s.pub.conns[s.links[t]];
            && handle.taken <= |handle.latched|
            && (|| PushedOutAtPublisher(s, k, q)
                || NotReadYet(k, q)
                || exists p :: Carries(s, k, t, p, q) && ForwardedTo(s, handle, p))
  {
    hide Inv, IsRun, After, Enabled, Apply;
    var s0 := Init(pubCapacity, latching, subCapacity);
    InitOk(pubCapacity, latching, subCapacity);
    RunInv(s0, acts);
    var s := After(s0, acts);
    Accounted(s, h, t, q);
  }

  /** Once both have caught up, a message not pushed out at the publisher's channel has been forwarded, and
      one forwarded since the handle's receiver was made and not yielded was pushed out at the subscriber's. */
  lemma LostOnlyByLag(pubCapacity: nat, latching: bool, subCapacity: nat, acts: seq<Action>, h: nat, t: nat, q: nat)
    requires pubCapacity > 0 && IsRun(Init(pubCapacity, latching, subCapacity), acts)
    requires var s := After(Init(pubCapacity, latching, subCapacity), acts);
             && h < |s.sub.handles| && t in s.links && s.links[t] < |s.pub.conns|
             && s.sub.handles[h].cursor == |s.sub.forward|
             && var k := s.pub.conns[s.links[t]];
                && k.cursor == |s.pub.log| && k.wire == [] && k.out == []
                && P.SentFrames(k, s.pub.log) && (q in k.sent || k.join <= q < |s.pub.log|)
    ensures var s := After(Init(pubCapacity, latching, subCapacity), acts);
            var handle, k := s.sub.handles[h], s.pub.conns[s.links[t]];
            && handle.taken <= |handle.latched|
            && (|| PushedOutAtPublisher(s, k, q)
                || exists p: nat :: Carries(s, k, t, p, q) &&
                     (p in S.Yielded(handle) || p < handle.join || p + subCapacity < |s.sub.forward|))
  {
    hide Inv, IsRun, After, Enabled, Apply;
    MissingWasPushedOut(pubCapacity, latching, subCapacity, acts, h, t, q);
    var s0 := Init(pubCapacity, latching, subCapacity);
    InitOk(pubCapacity, latching, subCapacity);
    RunInv(s0, acts);
    var s := After(s0, acts);
    KeepsCapacity(s0, acts);
    AllRead(s, h, t);
    hide PushedOutAtPublisher, S.Yielded;
    if !PushedOutAtPublisher(s, s.pub.conns[s.links[t]], q) {
      var p :| Carries(s, s.pub.conns[s.links[t]], t, p, q) && ForwardedTo(s, s.sub.handles[h], p);
    }
  }

  lemma AllRead(s: State, h: nat, t: nat)
    requires Inv(s) && h < |s.sub.handles| && t in s.links && s.links[t] < |s.pub.conns|
    requires var k := s.pub.conns[s.links[t]]; k.wire == [] && k.out == [] && P.SentFrames(k, s.pub.log)
    ensures |s.pub.conns[s.links[t]].parsed| == |s.pub.conns[s.links[t]].sent|
  {
    hide P.SentFrames;
    LinkedParts(s, h, t);
    P.ParsedIsPrefix(s.pub.conns[s.links[t]], s.pub.log, s.pub.capacity);
  }

  lemma CapacityStep(s: State, a: Action)
    requires Enabled(s, a)
    ensures Apply(s, a).sub.capacity == s.sub.capacity
  {
    hide P.Apply, P.Enabled, S.Receiving;
  }

  lemma {:induction false} KeepsCapacity(s: State, acts: seq<Action>)
    requires IsRun(s, acts)
    ensures After(s, acts).sub.capacity == s.sub.capacity
    decreases |acts|
  {
    hide Apply, Enabled;
    if acts != [] {
      CapacityStep(s, acts[0]);
      KeepsCapacity(Apply(s, acts[0]), acts[1..]);
    }
  }

  lemma InitOk(pubCapacity: nat, latching: bool, subCapacity: nat)
    requires pubCapacity > 0
    ensures Inv(Init(pubCapacity, latching, subCapacity))
  {
    hide S.Inv;
    S.InitOk(subCapacity);
  }

  lemma SkippedAtPublisher(s: State, k: P.Conn, q: nat)
    requires P.ConnOk(k, s.pub.log, s.pub.capacity) && k.join <= q < k.cursor && q !in k.sent
    ensures PushedOutAtPublisher(s, k, q)
  {
  }

  lemma SkippedAtSubscriber(s: State, handle: S.Handle, p: nat)
    requires S.HandleOk(s.sub, handle) && p < |s.sub.forward|
    ensures ForwardedTo(s, handle, p)
  {
    if handle.join <= p < handle.cursor && p in handle.live {
      var i :| 0 <= i < |handle.live| && handle.live[i] == p;
      assert S.Yielded(handle)[handle.taken + i] == p;
    }
  }

  /** What the connection's other end has read is in the forwarding log, under the task. */
  lemma ReadIsForwarded(s: State, h: nat, t: nat, i: nat)
    requires Inv(s) && h < |s.sub.handles| && t in s.links && s.links[t] < |s.pub.conns|
    requires var k := s.pub.conns[s.links[t]]; P.SentFrames(k, s.pub.log) && i < |k.parsed| && i < |k.sent|
    ensures var k := s.pub.conns[s.links[t]];
            exists p :: Carries(s, k, t, p, k.sent[i])
  {
    var k := s.pub.conns[s.links[t]];
    LinkedParts(s, h, t);
    ForwardedAll(s.sub, t);
    hide Inv, P.ConnOk, P.SentFrames, S.ForwardOk, S.HandleOk, S.FramesOf, S.Ranked;
    P.ParsedIsPrefix(k, s.pub.log, s.pub.capacity);
    assert s.sub.forward[..|s.sub.forward|] == s.sub.forward;
    IndexFound(s.sub.forward, |s.sub.forward|, t, i);
    var p :| 0 <= p < |s.sub.forward| && s.sub.forward[p].task == t && s.sub.forward[p].index == i;
    assert s.sub.forward[p].frame == k.parsed[i] == Messages(s.pub.log, k.sent[..|k.parsed|])[i];
    assert k.sent[i] in k.sent && k.sent[..|k.parsed|][i] == k.sent[i];
    assert Carries(s, k, t, p, k.sent[i]);
  }

  lemma ReadIsAccounted(s: State, h: nat, t: nat, i: nat)
    requires Inv(s) && h < |s.sub.handles| && t in s.links && s.links[t] < |s.pub.conns|
    requires var k := s.pub.conns[s.links[t]]; P.SentFrames(k, s.pub.log) && i < |k.parsed| && i < |k.sent|
    ensures var handle, k := s.sub.handles[h], s.pub.conns[s.links[t]];
            && handle.taken <= |handle.latched|
            && exists p :: Carries(s, k, t, p, k.sent[i]) && ForwardedTo(s, handle, p)
  {
    var k := s.pub.conns[s.links[t]];
    ReadIsForwarded(s, h, t, i);
    LinkedParts(s, h, t);
    hide Inv, P.ConnOk, P.SentFrames, S.ForwardOk, S.HandleOk, ForwardedTo, Carries;
    var p :| Carries(s, k, t, p, k.sent[i]);
    CarriesKnown(s, k, t, p, k.sent[i]);
    SkippedAtSubscriber(s, s.sub.handles[h], p);
  }

  lemma Accounted(s: State, h: nat, t: nat, q: nat)
    requires Inv(s) && h < |s.sub.handles| && t in s.links && s.links[t] < |s.pub.conns|
    requires var k := s.pub.conns[s.links[t]];
             P.SentFrames(k, s.pub.log) && (q in k.sent || k.join <= q < |s.pub.log|)
    ensures var handle, k := s.sub.handles[h], s.pub.conns[s.links[t]];
            && handle.taken <= |handle.latched|
            && (|| PushedOutAtPublisher(s, k, q)
                || NotReadYet(k, q)
                || exists p :: Carries(s, k, t, p, q) && ForwardedTo(s, handle, p))
  {
    var k := s.pub.conns[s.links[t]];
    LinkedParts(s, h, t);
    hide Inv, P.ConnOk, P.SentFrames, S.ForwardOk, S.HandleOk, PushedOutAtPublisher, ForwardedTo, Carries;
    if q in k.sent {
      var i :| 0 <= i < |k.sent| && k.sent[i] == q;
      if i < |k.parsed| {
        ReadIsAccounted(s, h, t, i);
      }
    } else if q < k.cursor {
      SkippedAtPublisher(s, k, q);
    }
  }

  lemma CarriesKnown(s: State, k: P.Conn, t: nat, p: nat, q: nat)
    requires Carries(s, k, t, p, q)
    ensures p < |s.sub.forward|
  {
  }
}
