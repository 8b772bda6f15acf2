/** The subscription's code as runs of `Subscription`: each method of `SubscriptionTasks`, uninterrupted, is a
    sequence of the machine's steps with the same effect. */
module SubscriptionRuns {
  import opened Bytes
  import opened Broadcast
  import opened Subscription

  lemma NoSteps(s: State)
    ensures IsRun(s, []) && After(s, []) == s
  {
  }

  // ---------------------------------------------------------------- Connecting

  /** Who answers at an address, and as what; a foreign publisher does not support TCPROS. */
  datatype Network = Network(
    reachable: set<string>,
    foreign: set<string>,
    callerId: string -> string,
    latching: string -> bool
  )

  /** Connections to some addresses were added, one each and nothing else. */
  ghost predicate Added(s: State, s': State, todo: seq<string>, net: Network) {
    && s' == s.(actor := s'.actor, addrs := s'.addrs, tasks := s'.tasks)
    && s'.addrs == s.addrs + (set a | a in todo && a in net.reachable)
    && |s.tasks| <= |s'.tasks| && s'.tasks[..|s.tasks|] == s.tasks
    && (forall a :: a in s'.addrs && a !in s.addrs <==> exists t :: |s.tasks| <= t < |s'.tasks| && s'.tasks[t].addr == a)
    && forall t | |s.tasks| <= t < |s'.tasks| ::
         s'.tasks[t] == Task(s'.tasks[t].addr, net.callerId(s'.tasks[t].addr), net.latching(s'.tasks[t].addr), Running, [])
  }

  lemma AddedNone(s: State, s': State, addr: string, net: Network)
    requires s' == s.(actor := s'.actor) && (addr in s.addrs || addr !in net.reachable)
    ensures Added(s, s', [addr], net)
  {
  }

  lemma AddedOne(s: State, s': State, addr: string, net: Network)
    requires addr !in s.addrs && addr in net.reachable
    requires s' == s.(actor := s'.actor, addrs := s.addrs + {addr},
                      tasks := s.tasks + [Task(addr, net.callerId(addr), net.latching(addr), Running, [])])
    ensures Added(s, s', [addr], net)
  {
    assert s'.tasks[|s.tasks|].addr == addr;
  }

  lemma AddedBoth(s: State, s1: State, s2: State, todo: seq<string>, net: Network)
    requires todo != [] && Added(s, s1, [todo[0]], net) && Added(s1, s2, todo[1..], net)
    ensures Added(s, s2, todo, net)
  {
    assert forall a :: a in todo <==> a == todo[0] || a in todo[1..];
    assert s2.tasks[..|s.tasks|] == s2.tasks[..|s1.tasks|][..|s.tasks|];
    forall t | |s.tasks| <= t < |s1.tasks| ensures s2.tasks[t] == s1.tasks[t] {
      assert s2.tasks[..|s1.tasks|][t] == s1.tasks[t];
    }
  }

  /** `add_publisher` for one address. */
  lemma OneVisited(s0: State, acts: seq<Action>, net: Network) returns (more: seq<Action>)
    requires IsRun(s0, acts) && After(s0, acts).actor.Visiting? && After(s0, acts).actor.todo != []
    ensures IsRun(s0, more)
    ensures var s, s' := After(s0, acts), After(s0, more);
            s'.actor == Visiting(s.actor.todo[1..]) && Added(s, s', [s.actor.todo[0]], net)
  {
    hide IsRun, After, Added;
    var s := After(s0, acts);
    var addr := s.actor.todo[0];
    if addr in net.foreign && addr !in net.reachable {
      Extend(s0, acts, Skip);
      more := acts + [Skip];
      AddedNone(s, After(s0, more), addr, net);
      return;
    }
    Extend(s0, acts, Visit);
    more := acts + [Visit];
    if addr !in s.addrs {
      if addr in net.reachable {
        Extend(s0, more, Connected(net.callerId(addr), net.latching(addr)));
        more := more + [Connected(net.callerId(addr), net.latching(addr))];
        AddedOne(s, After(s0, more), addr, net);
      } else {
        Extend(s0, more, ConnectFails);
        more := more + [ConnectFails];
        AddedNone(s, After(s0, more), addr, net);
      }
    } else {
      AddedNone(s, After(s0, more), addr, net);
    }
  }

  lemma {:induction false} AllVisited(s0: State, acts: seq<Action>, net: Network) returns (more: seq<Action>)
    requires IsRun(s0, acts) && After(s0, acts).actor.Visiting?
    ensures IsRun(s0, more) && After(s0, more).actor == Idle
    ensures Added(After(s0, acts), After(s0, more), After(s0, acts).actor.todo, net)
    decreases |After(s0, acts).actor.todo|
  {
    hide IsRun, After;
    var s := After(s0, acts);
    if s.actor.todo == [] {
      Extend(s0, acts, FinishVisit);
      more := acts + [FinishVisit];
    } else {
      more := OneVisited(s0, acts, net);
      var s1 := After(s0, more);
      more := AllVisited(s0, more, net);
      hide Added;
      AddedBoth(s, s1, After(s0, more), s.actor.todo, net);
    }
  }

  /** `update_connected_publishers`: of the announced addresses not connected, exactly those that answer are
      connected, one task each, and no other connection is touched. */
  lemma UpdateIsRun(s: State, announced: set<string>, order: seq<string>, net: Network) returns (acts: seq<Action>)
    requires s.actor == Idle && Lists(order, announced - s.addrs)
    ensures IsRun(s, acts) && After(s, acts).actor == Idle && Added(s, After(s, acts), order, net)
    ensures After(s, acts).addrs == s.addrs + announced * net.reachable
  {
    hide IsRun, After;
    NoSteps(s);
    Extend(s, [], Update(announced, order));
    acts := AllVisited(s, [] + [Update(announced, order)], net);
  }

  /** The same for the publishers that are there when the topic is registered. */
  lemma RegisterIsRun(s: State, publishers: seq<string>, net: Network) returns (acts: seq<Action>)
    requires s.actor == Idle
    ensures IsRun(s, acts) && After(s, acts).actor == Idle && Added(s, After(s, acts), publishers, net)
  {
    hide IsRun, After;
    NoSteps(s);
    Extend(s, [], Register(publishers));
    acts := AllVisited(s, [] + [Register(publishers)], net);
  }

  // ---------------------------------------------------------------- One publisher's stream

  /** The state once a task has forwarded these frames and, if it latches, stored the last. */
  function Received(s: State, t: nat, frames: seq<bytes>): State
    requires In(s, t, Running)
  {
    var k := s.tasks[t];
    var entries := seq(|frames|, i requires 0 <= i < |frames| => Forwarded(t, |k.received| + i, frames[i]));
    s.(forward := s.forward + entries, tasks := s.tasks[t := k.(received := k.received + frames)],
       latched := if k.latching && frames != [] then s.latched[k.callerId := |s.forward| + |frames| - 1] else s.latched)
  }

  lemma ReceivedOne(s: State, t: nat, frame: bytes)
    requires In(s, t, Running)
    ensures Enabled(s, TaskReceive(t, frame))
    ensures var s1 := Apply(s, TaskReceive(t, frame));
            if s.tasks[t].latching then Enabled(s1, Store(t)) && Apply(s1, Store(t)) == Received(s, t, [frame])
            else s1 == Received(s, t, [frame])
  {
  }

  lemma ReceivedMore(s: State, t: nat, frames: seq<bytes>, frame: bytes)
    requires In(s, t, Running)
    ensures In(Received(s, t, frames), t, Running)
    ensures Received(Received(s, t, frames), t, [frame]) == Received(s, t, frames + [frame])
  {
    var a, b := Received(Received(s, t, frames), t, [frame]), Received(s, t, frames + [frame]);
    assert a.forward == b.forward;
    assert a.tasks[t].received == b.tasks[t].received by {
      assert s.tasks[t].received + frames + [frame] == s.tasks[t].received + (frames + [frame]);
    }
    assert a.tasks == b.tasks;
    assert a.latched == b.latched;
  }

  lemma ReceivedNone(s: State, t: nat)
    requires In(s, t, Running)
    ensures Received(s, t, []) == s
  {
    assert s.tasks[t].received + [] == s.tasks[t].received;
    assert s.tasks[t := s.tasks[t]] == s.tasks;
    assert s.forward + [] == s.forward;
  }

  /** `subscriber_task`: the frames that arrive are forwarded in order, and the last is what is stored for a
      publisher that latches. */
  lemma {:induction false} SubscriberTaskIsRun(s: State, t: nat, frames: seq<bytes>) returns (acts: seq<Action>)
    requires In(s, t, Running)
    ensures IsRun(s, acts) && After(s, acts) == Received(s, t, frames)
    decreases |frames|
  {
    hide IsRun, After, Apply, Enabled, Received;
    if frames == [] {
      acts := [];
      NoSteps(s);
      ReceivedNone(s, t);
    } else {
      var n := |frames| - 1;
      acts := SubscriberTaskIsRun(s, t, frames[..n]);
      var s1 := Received(s, t, frames[..n]);
      assert frames == frames[..n] + [frames[n]];
      ReceivedMore(s, t, frames[..n], frames[n]);
      ReceivedOne(s1, t, frames[n]);
      Extend(s, acts, TaskReceive(t, frames[n]));
      acts := acts + [TaskReceive(t, frames[n])];
      if s1.tasks[t].latching {
        Extend(s, acts, Store(t));
        acts := acts + [Store(t)];
      }
    }
  }

  /** What is left of a publisher whose task has ended: its address is free, and no frame is stored under it. */
  lemma ExitIsRun(s: State, t: nat)
    requires In(s, t, Running)
    ensures var acts, addr := [TaskExit(t), RemoveLatched(t), RemoveAddr(t)], s.tasks[t].addr;
            && IsRun(s, acts)
            && After(s, acts) == s.(tasks := s.tasks[t := s.tasks[t].(phase := Gone)],
                                    latched := s.latched - {addr}, addrs := s.addrs - {addr})
  {
    hide IsRun, After, Lists, Receive, Receiving, PositionsOf;
    NoSteps(s);
    Extend(s, [], TaskExit(t));
    Extend(s, [] + [TaskExit(t)], RemoveLatched(t));
    Extend(s, [] + [TaskExit(t)] + [RemoveLatched(t)], RemoveAddr(t));
    assert [] + [TaskExit(t)] + [RemoveLatched(t)] + [RemoveAddr(t)] == [TaskExit(t), RemoveLatched(t), RemoveAddr(t)];
  }

  predicate Left(s: State, t: nat) {
    In(s, t, Finished) || In(s, t, Unlatched) || In(s, t, Gone)
  }

  lemma LeftStep(s: State, a: Action, t: nat)
    requires Left(s, t) && Enabled(s, a)
    ensures Left(Apply(s, a), t) && Apply(s, a).tasks[t].received == s.tasks[t].received
  {
    hide Lists, Receive, Receiving, PositionsOf;
  }

  /** A task that has ended forwards nothing more, over every run. */
  lemma {:induction false} LeftForGood(s: State, acts: seq<Action>, t: nat)
    requires Left(s, t) && IsRun(s, acts)
    ensures Left(After(s, acts), t) && After(s, acts).tasks[t].received == s.tasks[t].received
    decreases |acts|
  {
    hide Apply, Enabled;
    if acts != [] {
      LeftStep(s, acts[0], t);
      LeftForGood(Apply(s, acts[0]), acts[1..], t);
    }
  }

  // ---------------------------------------------------------------- Handles

  /** A handle's next yield, as `recv_raw` says: its latched frames in order, then the channel's. */
  lemma RecvYields(s: State, h: nat)
    requires Enabled(s, Recv(h)) && s.handles[h].taken <= |s.handles[h].latched|
    requires s.handles[h].live != [] ==> s.handles[h].taken == |s.handles[h].latched|
    ensures var before, after := s.handles[h], Apply(s, Recv(h)).handles[h];
            && Apply(s, Recv(h)) == s.(handles := s.handles[h := after]) && after.taken <= |after.latched|
            && if before.taken < |before.latched| then
                 && Yielded(after) == Yielded(before) + [before.latched[before.taken]] && after.cursor == before.cursor
               else
                 match Receive(before.cursor, |s.forward|, s.capacity)
                 case Got(p) => Yielded(after) == Yielded(before) + [p] && after.cursor == p + 1
                 case Lagged(oldest) => Yielded(after) == Yielded(before) && after.cursor == oldest
                 case Empty => false
  {
    var before := s.handles[h];
    if before.taken < |before.latched| {
      assert before.latched[..before.taken + 1] == before.latched[..before.taken] + [before.latched[before.taken]];
    }
  }

  /** A late handle starts with every stored frame, each once, and its receiver at the end of the log. */
  lemma LateHandleIsRun(s: State, callers: seq<string>)
    requires s.actor == Idle && Lists(callers, s.latched.Keys)
    ensures var acts := [TakeSnapshot(callers), Subscribe];
            && IsRun(s, acts)
            && var h := Handle(PositionsOf(s.latched, callers), 0, |s.forward|, |s.forward|, false, []);
               After(s, acts) == s.(handles := s.handles + [h])
    ensures forall p :: p in PositionsOf(s.latched, callers) <==> p in s.latched.Values
  {
    NoSteps(s);
    var ps := PositionsOf(s.latched, callers);
    forall p | p in s.latched.Values ensures p in ps {
      var c :| c in s.latched && s.latched[c] == p;
      assert c in s.latched.Keys && c in callers;
      var i :| 0 <= i < |callers| && callers[i] == c;
      assert ps[i] == p;
    }
    forall i | 0 <= i < |ps| ensures ps[i] in s.latched.Values {
      assert callers[i] in callers && callers[i] in s.latched.Keys;
    }
    hide IsRun, After, PositionsOf, Lists;
    Extend(s, [], TakeSnapshot(callers));
    Extend(s, [] + [TakeSnapshot(callers)], Subscribe);
    assert [] + [TakeSnapshot(callers)] + [Subscribe] == [TakeSnapshot(callers), Subscribe];
  }

  /** A clone starts with the latched frames its original has not yielded, and at the end of the log. */
  lemma CloneStarts(s: State, h: nat)
    requires Enabled(s, Clone(h))
    ensures var c := Apply(s, Clone(h)).handles[|s.handles|];
            && Apply(s, Clone(h)) == s.(handles := s.handles + [c])
            && s.handles[h].latched == s.handles[h].latched[..s.handles[h].taken] + c.latched
            && c.taken == 0 && Yielded(c) == [] && c.join == c.cursor == |s.forward| && !c.lagged
  {
  }
}
