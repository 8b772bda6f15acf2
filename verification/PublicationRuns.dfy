/** The publication's code as runs of `Publication`: each method of `PublicationTasks`, uninterrupted, is a
    sequence of the machine's steps with the same effect. */
module PublicationRuns {
  import opened Wrappers
  import opened Bytes
  import opened Broadcast
  import opened Publication
  import opened PublicationTasks

  /** A step of the connection's own task. */
  predicate TaskStep(a: Action, c: nat) {
    match a
    case Start(d) => d == c
    case Write(d, _) => d == c
    case TaskReceive(d) => d == c
    case _ => false
  }

  ghost predicate TaskRun(s: State, acts: seq<Action>, c: nat) {
    IsRun(s, acts) && forall i | 0 <= i < |acts| :: TaskStep(acts[i], c)
  }

  /** A socket may take any part of what is to be written first. */
  lemma WritesInParts(s: State, acts: seq<Action>, c: nat, n: nat) returns (more: seq<Action>)
    requires TaskRun(s, acts, c) && In(After(s, acts), c, Running) && n <= |After(s, acts).conns[c].out|
    ensures TaskRun(s, more, c)
    ensures var now := After(s, acts);
            var k := now.conns[c];
            After(s, more) == SetConn(now, c, k.(out := k.out[n..], wire := k.wire + k.out[..n]))
  {
    hide IsRun, After;
    var k := After(s, acts).conns[c];
    more := acts;
    if n > 0 {
      Extend(s, acts, Write(c, n));
      more := acts + [Write(c, n)];
    } else {
      assert k.out[0..] == k.out && k.out[..0] == [] && k.wire + [] == k.wire;
      assert After(s, acts).conns[c := k] == After(s, acts).conns;
    }
  }

  /** `write_all` of what is to be written. */
  lemma WritesOut(s: State, acts: seq<Action>, c: nat) returns (more: seq<Action>)
    requires TaskRun(s, acts, c) && In(After(s, acts), c, Running)
    ensures TaskRun(s, more, c)
    ensures var now := After(s, acts);
            var k := now.conns[c];
            After(s, more) == SetConn(now, c, k.(out := [], wire := k.wire + k.out))
  {
    var k := After(s, acts).conns[c];
    more := WritesInParts(s, acts, c, |k.out|);
    assert k.out[|k.out|..] == [] && k.out[..|k.out|] == k.out;
  }

  lemma Rest(log: seq<bytes>, p: nat, wire: bytes)
    requires p < |log|
    ensures wire + Flatten(log[p..]) == (wire + log[p]) + Flatten(log[p + 1..])
  {
    assert log[p..][0] == log[p] && log[p..][1..] == log[p + 1..];
  }

  /** The receive loop until nothing is left. */
  lemma {:induction false} ReceivesAll(s: State, acts: seq<Action>, c: nat) returns (more: seq<Action>)
    requires s.capacity > 0 && TaskRun(s, acts, c) && In(After(s, acts), c, Running) && After(s, acts).capacity == s.capacity
    requires var now := After(s, acts); now.conns[c].out == [] && now.conns[c].cursor <= |now.log|
    ensures TaskRun(s, more, c)
    ensures var now, later := After(s, acts), After(s, more);
            var k := now.conns[c];
            && c < |later.conns|
            && later == SetConn(now, c, k.(cursor := |now.log|, sent := later.conns[c].sent, lagged := later.conns[c].lagged,
                 wire := k.wire + Flatten(now.log[FirstLeft(|now.log|, now.capacity, k.cursor)..])))
    decreases |After(s, acts).log| - After(s, acts).conns[c].cursor
  {
    hide IsRun, After, Flatten;
    var now := After(s, acts);
    var k := now.conns[c];
    if k.cursor == |now.log| {
      more := acts;
      assert now.log[|now.log|..] == [] && k.wire + [] == k.wire;
      assert Flatten([]) == [] by { FlattenNone(); }
      assert now.conns[c := k] == now.conns;
    } else {
      Extend(s, acts, TaskReceive(c));
      var taken := acts + [TaskReceive(c)];
      match Receive(k.cursor, |now.log|, now.capacity) {
        case Got(p) =>
          taken := WritesOut(s, taken, c);
          Rest(now.log, p, k.wire);
          assert FirstLeft(|now.log|, now.capacity, p + 1) == p + 1 && FirstLeft(|now.log|, now.capacity, p) == p;
        case Lagged(_) =>
      }
      var mid := After(s, taken);
      assert mid == SetConn(now, c, mid.conns[c]);
      more := ReceivesAll(s, taken, c);
      var last := After(s, more).conns[c];
      assert now.conns[c := mid.conns[c]][c := last] == now.conns[c := last];
    }
  }

  lemma FlattenNone()
    ensures Flatten([]) == []
  {
  }

  /** `publisher_task`: from where a connection starts, its task's own steps write exactly what the method
      of that name writes, and touch nothing else. */
  lemma PublisherTaskIsRun(s: State, c: nat) returns (acts: seq<Action>)
    requires Inv(s) && In(s, c, Starting)
    ensures TaskRun(s, acts, c)
    ensures var k, s' := s.conns[c], After(s, acts);
            && c < |s'.conns| && (k.latch.Some? ==> k.latch.value < |s.log|)
            && s' == SetConn(s, c, k.(phase := Running, cursor := |s.log|,
                 sent := s'.conns[c].sent, lagged := s'.conns[c].lagged,
                 wire := Written(if k.latch.Some? then Some(s.log[k.latch.value]) else None, s.log, s.capacity, k.join)))
  {
    hide Flatten;
    var k := s.conns[c];
    assert ConnOk(k, s.log, s.capacity);
    assert IsRun(s, []) && After(s, []) == s;
    hide IsRun, After;
    Extend(s, [], Start(c));
    acts := [] + [Start(c)];
    acts := WritesOut(s, acts, c);
    acts := ReceivesAll(s, acts, c);
    var latched := if k.latch.Some? then s.log[k.latch.value] else [];
    assert [] + latched == latched;
  }

  /** The accept branch: an accepted connection whose headers are exchanged starts from the latched message
      and the log's end and is reported, as `OnConnection` says, and the listener accepts again. */
  lemma AcceptIsRun(s: State, id: string)
    requires s.listener == Accepting
    ensures var acts := [Accept, SetupDone(id), Resubscribe, InsertId];
            IsRun(s, acts) && After(s, acts) ==
              s.(ids := s.ids + {id},
                 conns := s.conns + [Conn(id, Starting, s.latched, |s.log|, |s.log|, false, [], [], [], [])])
  {
    hide IsRun, After;
    assert IsRun(s, []) && After(s, []) == s by { NoSteps(s); }
    Extend(s, [], Accept);
    Extend(s, [] + [Accept], SetupDone(id));
    Extend(s, [] + [Accept] + [SetupDone(id)], Resubscribe);
    Extend(s, [] + [Accept] + [SetupDone(id)] + [Resubscribe], InsertId);
    assert [] + [Accept] + [SetupDone(id)] + [Resubscribe] + [InsertId] == [Accept, SetupDone(id), Resubscribe, InsertId];
  }

  lemma NoSteps(s: State)
    ensures IsRun(s, []) && After(s, []) == s
  {
  }

  /** And one whose header exchange fails leaves no trace: the listener accepts again. */
  lemma RefusalIsRun(s: State)
    requires s.listener == Accepting
    ensures IsRun(s, [Accept, SetupFails]) && After(s, [Accept, SetupFails]) == s
  {
    hide IsRun, After;
    NoSteps(s);
    Extend(s, [], Accept);
    Extend(s, [] + [Accept], SetupFails);
    assert [] + [Accept] + [SetupFails] == [Accept, SetupFails];
  }

  /** One connection at a time: between accepting and accepting again, the listener moves only by the header
      exchange's end, the new receiver and the new id, in this order. */
  lemma OneAtATime(s: State, a: Action)
    requires Enabled(s, a) && s.listener != Accepting && Apply(s, a).listener != s.listener
    ensures s.listener != Stopped
    ensures s.listener == SettingUp ==> a == SetupFails || a.SetupDone?
    ensures s.listener.Snapshot? ==> a == Resubscribe
    ensures s.listener.Joining? ==> a == InsertId
  {
  }

  /** The receive branch, as `OnMessage` says: the latched message is the one received; a lag only moves on. */
  lemma ListenerReceives(s: State)
    requires s.latching && s.listener == Accepting && Receive(s.listenerCursor, |s.log|, s.capacity) != Empty
    ensures Enabled(s, ListenerReceive)
    ensures Apply(s, ListenerReceive) ==
            match Receive(s.listenerCursor, |s.log|, s.capacity)
            case Got(p) => s.(latched := Some(p), listenerCursor := p + 1)
            case Lagged(oldest) => s.(listenerCursor := oldest)
  {
  }

  /** A task that is stopped, or whose write fails, takes only its own id from the report. */
  lemma EndIsRun(s: State, c: nat)
    requires In(s, c, Running)
    ensures var end := if s.conns[c].out == [] then Stop(c) else Fail(c);
            && IsRun(s, [end, Cleanup(c)])
            && After(s, [end, Cleanup(c)]) ==
               SetConn(s, c, s.conns[c].(phase := Gone)).(ids := s.ids - {s.conns[c].id})
  {
    hide IsRun, After;
    var end := if s.conns[c].out == [] then Stop(c) else Fail(c);
    NoSteps(s);
    Extend(s, [], end);
    Extend(s, [] + [end], Cleanup(c));
    assert [] + [end] + [Cleanup(c)] == [end, Cleanup(c)];
  }

  lemma {:induction false} StopsFrom(s: State, acts: seq<Action>)
    requires IsRun(s, acts)
    ensures After(s, acts).listener == Stopped <==> s.listener == Stopped || StopListener in acts
    decreases |acts|
  {
    if acts != [] {
      StopsFrom(Apply(s, acts[0]), acts[1..]);
    }
  }

  /** Over every run, whatever connections and header exchanges fail: the listener has ended exactly if it
      was stopped. */
  lemma OnlyStopped(capacity: nat, latching: bool, acts: seq<Action>)
    requires IsRun(Init(capacity, latching), acts)
    ensures After(Init(capacity, latching), acts).listener == Stopped <==> StopListener in acts
  {
    StopsFrom(Init(capacity, latching), acts);
  }

  predicate Ended(s: State, c: nat) {
    In(s, c, Finished) || In(s, c, Gone)
  }

  lemma EndedStep(s: State, a: Action, c: nat)
    requires Enabled(s, a) && a != Fail(c) && (Ended(s, c) ==> s.conns[c].out == [])
    ensures Ended(Apply(s, a), c) ==> Apply(s, a).conns[c].out == []
  {
  }

  lemma {:induction false} EndedFrom(s: State, acts: seq<Action>, c: nat)
    requires IsRun(s, acts) && Fail(c) !in acts && (Ended(s, c) ==> s.conns[c].out == [])
    ensures Ended(After(s, acts), c) ==> After(s, acts).conns[c].out == []
    decreases |acts|
  {
    hide Apply, Enabled, Ended;
    if acts != [] {
      EndedStep(s, acts[0], c);
      EndedFrom(Apply(s, acts[0]), acts[1..], c);
    }
  }

  /** Over every run: a task that ended has written every message it began, unless a write of its failed. */
  lemma StoppedBetweenMessages(capacity: nat, latching: bool, acts: seq<Action>, c: nat)
    requires IsRun(Init(capacity, latching), acts) && Fail(c) !in acts && Ended(After(Init(capacity, latching), acts), c)
    ensures After(Init(capacity, latching), acts).conns[c].out == []
  {
    EndedFrom(Init(capacity, latching), acts, c);
  }
}
