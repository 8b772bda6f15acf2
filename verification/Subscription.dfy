/** The subscriber's side of a topic as a state machine: the actor that connects to publishers and
    hands out handles, one subscriber task per publisher connection, the forwarding channel, the
    latched messages, and the handles that read them. */
module Subscription {
  import opened Bytes
  import opened Broadcast
  import opened Seqs

  /** A forwarded frame: the `index`-th one received by its task. */
  datatype Forwarded = Forwarded(task: nat, index: nat, frame: bytes)

  datatype Phase = Running | Storing(position: nat) | Finished | Unlatched | Gone

  datatype Task = Task(addr: string, callerId: string, latching: bool, phase: Phase, received: seq<bytes>)

  /** A `Subscriber`. Frames are named by their positions in the forwarding log. */
  datatype Handle = Handle(
    latched: seq<nat>,   // the latched frames it was made with
    taken: nat,          // how many of those it has yielded
    join: nat,           // the log's length when its receiver was made
    cursor: nat,
    lagged: bool,
    live: seq<nat>       // what it yielded from the receiver
  )

  /** The actor handles one message at a time. */
  datatype Actor =
    | Idle
    | Visiting(todo: seq<string>)
    | Connecting(addr: string, todo: seq<string>)
    | Snapshotted(latched: seq<nat>)

  datatype State = State(
    capacity: nat,
    forward: seq<Forwarded>,
    tasks: seq<Task>,
    addrs: set<string>,          // `publisher_addrs`
    latched: map<string, nat>,   // `latched_msgs`: caller id to forwarded position
    actor: Actor,
    handles: seq<Handle>
  )

  datatype Action =
    | Register(publishers: seq<string>)
    | Update(announced: set<string>, order: seq<string>)
    | Visit
    | Skip
    | ConnectFails
    | Connected(callerId: string, latching: bool)
    | FinishVisit
    | TaskReceive(t: nat, frame: bytes)
    | Store(t: nat)
    | TaskExit(t: nat)
    | RemoveLatched(t: nat)
    | RemoveAddr(t: nat)
    | TakeSnapshot(callers: seq<string>)
    | Subscribe
    | Recv(h: nat)
    | Clone(h: nat)

  /** A new subscription with the handle that was returned for it. */
  function Init(capacity: nat): State {
    State(capacity, [], [], {}, map[], Idle, [Handle([], 0, 0, 0, false, [])])
  }

  predicate In(s: State, t: nat, phase: Phase) {
    t < |s.tasks| && s.tasks[t].phase == phase
  }

  /** `order` lists the elements of `xs`, each once. */
  ghost predicate Lists(order: seq<string>, xs: set<string>) {
    NoRepeats(order) && forall x :: x in order <==> x in xs
  }

  ghost predicate Enabled(s: State, a: Action) {
    match a
    case Register(_) => s.actor == Idle
    case Update(announced, order) => s.actor == Idle && Lists(order, announced - s.addrs)
    case Visit => s.actor.Visiting? && s.actor.todo != []
    case Skip => s.actor.Visiting? && s.actor.todo != []
    case ConnectFails => s.actor.Connecting?
    case Connected(_, _) => s.actor.Connecting?
    case FinishVisit => s.actor == Visiting([])
    case TaskReceive(t, _) => In(s, t, Running)
    case Store(t) => t < |s.tasks| && s.tasks[t].phase.Storing?
    case TaskExit(t) => In(s, t, Running)
    case RemoveLatched(t) => In(s, t, Finished)
    case RemoveAddr(t) => In(s, t, Unlatched)
    case TakeSnapshot(callers) => s.actor == Idle && Lists(callers, s.latched.Keys)
    case Subscribe => s.actor.Snapshotted?
    case Recv(h) =>
      h < |s.handles| &&
      (s.handles[h].taken < |s.handles[h].latched| || Receive(s.handles[h].cursor, |s.forward|, s.capacity) != Empty)
    case Clone(h) => h < |s.handles| && s.handles[h].taken <= |s.handles[h].latched|
  }

  function SetPhase(s: State, t: nat, phase: Phase): State
    requires t < |s.tasks|
  {
    s.(tasks := s.tasks[t := s.tasks[t].(phase := phase)])
  }

  function PositionsOf(latched: map<string, nat>, callers: seq<string>): (ps: seq<nat>)
    ensures |ps| == |callers|
  {
    seq(|callers|, i requires 0 <= i < |callers| => if callers[i] in latched then latched[callers[i]] else 0)
  }

  function Receiving(s: State, h: Handle): Handle {
    if h.taken < |h.latched| then h.(taken := h.taken + 1)
    else
      match Receive(h.cursor, |s.forward|, s.capacity)
      case Got(p) => h.(live := h.live + [p], cursor := p + 1)
      case Lagged(oldest) => h.(cursor := oldest, lagged := true)
      case Empty => h
  }

  function Apply(s: State, a: Action): State
    requires Enabled(s, a)
  {
    match a
    case Register(publishers) => s.(actor := Visiting(publishers))
    case Update(_, order) => s.(actor := Visiting(order))
    case Visit =>
      var addr := s.actor.todo[0];
      s.(actor := if addr in s.addrs then Visiting(s.actor.todo[1..]) else Connecting(addr, s.actor.todo[1..]))
    case Skip => s.(actor := Visiting(s.actor.todo[1..]))
    case ConnectFails => s.(actor := Visiting(s.actor.todo))
    case Connected(callerId, latching) =>
      s.(addrs := s.addrs + {s.actor.addr}, actor := Visiting(s.actor.todo),
         tasks := s.tasks + [Task(s.actor.addr, callerId, latching, Running, [])])
    case FinishVisit => s.(actor := Idle)
    case TaskReceive(t, frame) =>
      var k := s.tasks[t];
      var k' := k.(received := k.received + [frame], phase := if k.latching then Storing(|s.forward|) else Running);
      s.(forward := s.forward + [Forwarded(t, |k.received|, frame)], tasks := s.tasks[t := k'])
    case Store(t) =>
      var k := s.tasks[t];
      SetPhase(s, t, Running).(latched := s.latched[k.callerId := k.phase.position])
    case TaskExit(t) => SetPhase(s, t, Finished)
    case RemoveLatched(t) => SetPhase(s, t, Unlatched).(latched := s.latched - {s.tasks[t].addr})
    case RemoveAddr(t) => SetPhase(s, t, Gone).(addrs := s.addrs - {s.tasks[t].addr})
    case TakeSnapshot(callers) => s.(actor := Snapshotted(PositionsOf(s.latched, callers)))
    case Subscribe =>
      s.(actor := Idle, handles := s.handles + [Handle(s.actor.latched, 0, |s.forward|, |s.forward|, false, [])])
    case Recv(h) => s.(handles := s.handles[h := Receiving(s, s.handles[h])])
    case Clone(h) =>
      s.(handles := s.handles +
           [Handle(s.handles[h].latched[s.handles[h].taken..], 0, |s.forward|, |s.forward|, false, [])])
  }

  ghost predicate IsRun(s: State, acts: seq<Action>)
    decreases |acts|
  {
    acts == [] || (Enabled(s, acts[0]) && IsRun(Apply(s, acts[0]), acts[1..]))
  }

  ghost function After(s: State, acts: seq<Action>): State
    requires IsRun(s, acts)
    decreases |acts|
  {
    if acts == [] then s else After(Apply(s, acts[0]), acts[1..])
  }

  // ---------------------------------------------------------------- One connection per publisher

  predicate Open(k: Task) {
    k.phase != Gone
  }

  /** The address set is that of the tasks that have not finished their cleanup, one task per address;
      and the actor dials only addresses outside it. */
  ghost predicate OnePerAddress(s: State) {
    && (forall a :: a in s.addrs <==> exists t :: 0 <= t < |s.tasks| && Open(s.tasks[t]) && s.tasks[t].addr == a)
    && (forall t, u | 0 <= t < u < |s.tasks| && Open(s.tasks[t]) && Open(s.tasks[u]) :: s.tasks[t].addr != s.tasks[u].addr)
    && (s.actor.Connecting? ==> s.actor.addr !in s.addrs)
  }

  lemma OnePerAddressConnected(s: State, a: Action)
    requires OnePerAddress(s) && Enabled(s, a) && a.Connected?
    ensures OnePerAddress(Apply(s, a))
  {
    var s' := Apply(s, a);
    forall x | x in s'.addrs ensures exists t :: 0 <= t < |s'.tasks| && Open(s'.tasks[t]) && s'.tasks[t].addr == x {
      if x in s.addrs {
        var t :| 0 <= t < |s.tasks| && Open(s.tasks[t]) && s.tasks[t].addr == x;
        assert Open(s'.tasks[t]);
      } else {
        assert Open(s'.tasks[|s.tasks|]);
      }
    }
  }

  lemma OnePerAddressTask(s: State, s': State, t: nat)
    requires OnePerAddress(s) && t < |s.tasks| && Open(s.tasks[t])
    requires |s'.tasks| == |s.tasks| && s'.actor == s.actor
    requires forall u | 0 <= u < |s.tasks| && u != t :: s'.tasks[u] == s.tasks[u]
    requires s'.tasks[t].addr == s.tasks[t].addr
    requires s'.addrs == if Open(s'.tasks[t]) then s.addrs else s.addrs - {s.tasks[t].addr}
    ensures OnePerAddress(s')
  {
    forall x | x in s'.addrs ensures exists u :: 0 <= u < |s'.tasks| && Open(s'.tasks[u]) && s'.tasks[u].addr == x {
      var u :| 0 <= u < |s.tasks| && Open(s.tasks[u]) && s.tasks[u].addr == x;
      assert Open(s'.tasks[u]);
    }
    forall u | 0 <= u < |s'.tasks| && Open(s'.tasks[u]) ensures s'.tasks[u].addr in s'.addrs {
      assert Open(s.tasks[u]);
    }
  }

  lemma OnePerAddressStep(s: State, a: Action)
    requires OnePerAddress(s) && Enabled(s, a)
    ensures OnePerAddress(Apply(s, a))
  {
    match a
    case Connected(_, _) => OnePerAddressConnected(s, a);
    case TaskReceive(t, _) => OnePerAddressTask(s, Apply(s, a), t);
    case Store(t) => OnePerAddressTask(s, Apply(s, a), t);
    case TaskExit(t) => OnePerAddressTask(s, Apply(s, a), t);
    case RemoveLatched(t) => OnePerAddressTask(s, Apply(s, a), t);
    case RemoveAddr(t) => OnePerAddressTask(s, Apply(s, a), t);
    case _ =>
  }

  /** In every reachable state the address set is exactly the addresses of the tasks not yet cleaned
      up, no address has two, and what is being dialled is not among them. */
  lemma {:induction false} OneConnectionPerPublisher(s: State, acts: seq<Action>)
    requires OnePerAddress(s) && IsRun(s, acts)
    ensures OnePerAddress(After(s, acts))
    decreases |acts|
  {
    if acts != [] {
      OnePerAddressStep(s, acts[0]);
      OneConnectionPerPublisher(Apply(s, acts[0]), acts[1..]);
    }
  }

  // ---------------------------------------------------------------- The forwarding log

  /** The frames one task forwarded, in the order of the log. */
  function FramesOf(forward: seq<Forwarded>, t: nat): seq<bytes> {
    if forward == [] then []
    else
      var last := forward[|forward| - 1];
      FramesOf(forward[..|forward| - 1], t) + if last.task == t then [last.frame] else []
  }

  /** Each log entry names its place among what its task received, and those places go up. */
  ghost predicate IndexesOk(s: State) {
    && (forall i | 0 <= i < |s.forward| :: s.forward[i].task < |s.tasks|
          && s.forward[i].index < |s.tasks[s.forward[i].task].received|
          && s.forward[i].frame == s.tasks[s.forward[i].task].received[s.forward[i].index])
    && (forall i, j | 0 <= i < j < |s.forward| && s.forward[i].task == s.forward[j].task ::
          s.forward[i].index < s.forward[j].index)
  }

  /** Each entry's index is the number of its task's entries before it. */
  predicate Ranked(forward: seq<Forwarded>) {
    forall i | 0 <= i < |forward| :: forward[i].index == |FramesOf(forward[..i], forward[i].task)|
  }

  /** The log holds exactly what each task received, in the order it received it. */
  ghost predicate ForwardOk(s: State) {
    && IndexesOk(s) && Ranked(s.forward)
    && (forall t | 0 <= t < |s.tasks| :: FramesOf(s.forward, t) == s.tasks[t].received)
    && (forall t | |s.tasks| <= t :: FramesOf(s.forward, t) == [])
  }

  lemma FramesOfSnoc(forward: seq<Forwarded>, x: Forwarded)
    ensures forall u: nat :: FramesOf(forward + [x], u) == FramesOf(forward, u) + if x.task == u then [x.frame] else []
  {
    assert (forward + [x])[..|forward|] == forward;
  }

  lemma RankedSnoc(forward: seq<Forwarded>, x: Forwarded)
    requires Ranked(forward) && x.index == |FramesOf(forward, x.task)|
    ensures Ranked(forward + [x])
  {
    hide FramesOf;
    assert forall i | 0 <= i < |forward| :: (forward + [x])[..i] == forward[..i];
    assert (forward + [x])[..|forward|] == forward;
  }

  lemma IndexesOkReceive(s: State, t: nat, frame: bytes)
    requires IndexesOk(s) && Enabled(s, TaskReceive(t, frame))
    ensures IndexesOk(Apply(s, TaskReceive(t, frame)))
  {
  }

  lemma ForwardOkReceive(s: State, t: nat, frame: bytes)
    requires ForwardOk(s) && Enabled(s, TaskReceive(t, frame))
    ensures ForwardOk(Apply(s, TaskReceive(t, frame)))
  {
    IndexesOkReceive(s, t, frame);
    FramesOfSnoc(s.forward, Forwarded(t, |s.tasks[t].received|, frame));
    RankedSnoc(s.forward, Forwarded(t, |s.tasks[t].received|, frame));
    hide IndexesOk, FramesOf, Ranked;
  }

  lemma ForwardOkOther(s: State, s': State)
    requires ForwardOk(s) && s'.forward == s.forward && |s'.tasks| >= |s.tasks|
    requires forall t | 0 <= t < |s.tasks| :: s'.tasks[t].received == s.tasks[t].received
    requires forall t | |s.tasks| <= t < |s'.tasks| :: s'.tasks[t].received == []
    ensures ForwardOk(s')
  {
  }

  lemma ForwardOkStep(s: State, a: Action)
    requires ForwardOk(s) && Enabled(s, a)
    ensures ForwardOk(Apply(s, a))
  {
    hide ForwardOk;
    if a.TaskReceive? {
      ForwardOkReceive(s, a.t, a.frame);
    } else {
      ForwardOkOther(s, Apply(s, a));
    }
  }

  // ---------------------------------------------------------------- Handles

  predicate Known(s: State, p: nat) {
    p < |s.forward| && s.forward[p].task < |s.tasks|
  }

  /** The caller id of the publisher a forwarded frame came from. */
  function CallerOf(s: State, p: nat): string
    requires Known(s, p)
  {
    s.tasks[s.forward[p].task].callerId
  }

  /** Frames of different publishers, all forwarded before `end`. */
  ghost predicate OnePerCaller(s: State, ps: seq<nat>, end: nat) {
    && (forall i | 0 <= i < |ps| :: Known(s, ps[i]) && ps[i] < end)
    && (forall i, j | 0 <= i < j < |ps| :: CallerOf(s, ps[i]) != CallerOf(s, ps[j]))
  }

  ghost predicate HandleOk(s: State, h: Handle) {
    && h.taken <= |h.latched| && h.join <= h.cursor <= |s.forward|
    && OnePerCaller(s, h.latched, h.join)
    && Increasing(h.live)
    && (forall i | 0 <= i < |h.live| :: h.join <= h.live[i] < h.cursor)
    && (h.live != [] ==> h.taken == |h.latched|)
    && (!h.lagged ==> |h.live| == h.cursor - h.join && forall i | 0 <= i < |h.live| :: h.live[i] == h.join + i)
    && (forall p | h.join <= p < h.cursor && p !in h.live :: p + s.capacity < |s.forward|)
  }

  ghost predicate LatchedOk(s: State) {
    && (forall c | c in s.latched :: Known(s, s.latched[c]) && CallerOf(s, s.latched[c]) == c)
    && (forall t | 0 <= t < |s.tasks| && s.tasks[t].phase.Storing? ::
          Known(s, s.tasks[t].phase.position) && s.forward[s.tasks[t].phase.position].task == t)
    && (s.actor.Snapshotted? ==> OnePerCaller(s, s.actor.latched, |s.forward|))
  }

  ghost predicate HandlesOk(s: State) {
    forall h | 0 <= h < |s.handles| :: HandleOk(s, s.handles[h])
  }

  /** The log and the tasks only grow, and a task keeps its caller id. */
  ghost predicate Grew(s: State, s': State) {
    && |s.forward| <= |s'.forward| && s'.forward[..|s.forward|] == s.forward && s'.capacity == s.capacity
    && |s.tasks| <= |s'.tasks|
    && forall t | 0 <= t < |s.tasks| ::
         && s'.tasks[t].callerId == s.tasks[t].callerId && s'.tasks[t].addr == s.tasks[t].addr
         && s'.tasks[t].latching == s.tasks[t].latching
  }

  lemma StepGrows(s: State, a: Action)
    requires Enabled(s, a)
    ensures Grew(s, Apply(s, a))
  {
  }

  lemma {:induction false} RunGrows(s: State, acts: seq<Action>)
    requires IsRun(s, acts)
    ensures Grew(s, After(s, acts))
    decreases |acts|
  {
    hide Apply, Enabled;
    if acts != [] {
      var s1, s2 := Apply(s, acts[0]), After(s, acts);
      StepGrows(s, acts[0]);
      RunGrows(s1, acts[1..]);
      assert s2.forward[..|s.forward|] == s2.forward[..|s1.forward|][..|s.forward|];
    }
  }

  lemma KnownGrows(s: State, s': State, p: nat)
    requires Grew(s, s') && Known(s, p)
    ensures Known(s', p) && CallerOf(s', p) == CallerOf(s, p) && s'.forward[p] == s.forward[p]
  {
    assert s'.forward[..|s.forward|][p] == s.forward[p];
  }

  lemma OnePerCallerGrows(s: State, s': State, ps: seq<nat>, end: nat)
    requires Grew(s, s') && OnePerCaller(s, ps, end)
    ensures OnePerCaller(s', ps, end)
  {
    forall i | 0 <= i < |ps| ensures Known(s', ps[i]) && CallerOf(s', ps[i]) == CallerOf(s, ps[i]) {
      KnownGrows(s, s', ps[i]);
    }
  }

  lemma HandleGrows(s: State, s': State, h: Handle)
    requires Grew(s, s') && HandleOk(s, h)
    ensures HandleOk(s', h)
  {
    hide OnePerCaller;
    OnePerCallerGrows(s, s', h.latched, h.join);
  }

  lemma HandlesGrow(s: State, s': State)
    requires Grew(s, s') && HandlesOk(s)
    ensures forall h | 0 <= h < |s.handles| :: HandleOk(s', s.handles[h])
  {
    hide HandleOk, Grew;
    forall h | 0 <= h < |s.handles| ensures HandleOk(s', s.handles[h]) {
      HandleGrows(s, s', s.handles[h]);
    }
  }

  lemma ReceivingKeeps(s: State, h: Handle)
    requires HandleOk(s, h)
    requires h.taken < |h.latched| || Receive(h.cursor, |s.forward|, s.capacity) != Empty
    ensures HandleOk(s, Receiving(s, h))
  {
    hide OnePerCaller;
  }

  lemma CloneKeeps(s: State, h: Handle)
    requires HandleOk(s, h)
    ensures HandleOk(s, Handle(h.latched[h.taken..], 0, |s.forward|, |s.forward|, false, []))
  {
  }

  lemma SnapshotKeeps(s: State, callers: seq<string>)
    requires LatchedOk(s) && Enabled(s, TakeSnapshot(callers))
    ensures OnePerCaller(s, PositionsOf(s.latched, callers), |s.forward|)
  {
    forall i | 0 <= i < |callers| ensures callers[i] in s.latched {
      assert callers[i] in callers;
    }
  }

  lemma LatchedOkStep(s: State, a: Action)
    requires LatchedOk(s) && ForwardOk(s) && Enabled(s, a)
    ensures LatchedOk(Apply(s, a))
  {
    hide OnePerCaller, ForwardOk, Lists, PositionsOf, Receiving, Receive;
    var s' := Apply(s, a);
    StepGrows(s, a);
    forall c | c in s.latched ensures Known(s', s.latched[c]) && CallerOf(s', s.latched[c]) == c {
      KnownGrows(s, s', s.latched[c]);
    }
    if s.actor.Snapshotted? {
      OnePerCallerGrows(s, s', s.actor.latched, |s.forward|);
      OnePerCallerLater(s', s.actor.latched, |s.forward|, |s'.forward|);
    }
    if a.TakeSnapshot? {
      SnapshotKeeps(s, a.callers);
      OnePerCallerGrows(s, s', PositionsOf(s.latched, a.callers), |s.forward|);
    }
  }

  lemma OnePerCallerLater(s: State, ps: seq<nat>, end: nat, later: nat)
    requires OnePerCaller(s, ps, end) && end <= later
    ensures OnePerCaller(s, ps, later)
  {
  }

  lemma HandlesOkStep(s: State, a: Action)
    requires HandlesOk(s) && LatchedOk(s) && Enabled(s, a)
    ensures HandlesOk(Apply(s, a))
  {
    var s' := Apply(s, a);
    StepGrows(s, a);
    HandlesGrow(s, s');
    if a.Subscribe? {
      assert HandleOk(s', s'.handles[|s.handles|]);
    } else if a.Recv? {
      hide HandleOk;
      ReceivingKeeps(s, s.handles[a.h]);
      HandleGrows(s, s', Receiving(s, s.handles[a.h]));
    } else if a.Clone? {
      hide HandleOk;
      CloneKeeps(s, s.handles[a.h]);
      HandleGrows(s, s', s'.handles[|s.handles|]);
    }
  }

  ghost predicate Inv(s: State) {
    OnePerAddress(s) && ForwardOk(s) && LatchedOk(s) && HandlesOk(s)
  }

  lemma InitOk(capacity: nat)
    ensures Inv(Init(capacity))
  {
    var s := Init(capacity);
    assert OnePerAddress(s);
    assert ForwardOk(s) && LatchedOk(s);
    hide OnePerAddress, ForwardOk, LatchedOk;
    assert HandleOk(s, s.handles[0]);
  }

  lemma InvStep(s: State, a: Action)
    requires Inv(s) && Enabled(s, a)
    ensures Inv(Apply(s, a))
  {
    hide OnePerAddress, ForwardOk, LatchedOk, HandlesOk, Apply;
    OnePerAddressStep(s, a);
    ForwardOkStep(s, a);
    LatchedOkStep(s, a);
    HandlesOkStep(s, a);
  }

  lemma {:induction false} RunInv(s: State, acts: seq<Action>)
    requires Inv(s) && IsRun(s, acts)
    ensures Inv(After(s, acts))
    decreases |acts|
  {
    hide Inv, Apply;
    if acts != [] {
      InvStep(s, acts[0]);
      RunInv(Apply(s, acts[0]), acts[1..]);
    }
  }

  /** Everything a handle has yielded: its latched frames first, then the live ones. */
  function Yielded(h: Handle): seq<nat>
    requires h.taken <= |h.latched|
  {
    h.latched[..h.taken] + h.live
  }

  /** No frame twice, and the frames of one publisher connection in the order it sent them. */
  ghost predicate OnceInOrder(s: State, ps: seq<nat>) {
    && NoRepeats(ps)
    && (forall i | 0 <= i < |ps| :: Known(s, ps[i]))
    && forall i, j | 0 <= i < j < |ps| && s.forward[ps[i]].task == s.forward[ps[j]].task ::
         s.forward[ps[i]].index < s.forward[ps[j]].index
  }

  lemma YieldedInOrder(s: State, h: Handle)
    requires ForwardOk(s) && HandleOk(s, h)
    ensures OnceInOrder(s, Yielded(h))
  {
    var ps := Yielded(h);
    var n := h.taken;
    forall i, j | 0 <= i < j < |ps|
      ensures Known(s, ps[i]) && Known(s, ps[j]) && ps[i] != ps[j]
      ensures s.forward[ps[i]].task == s.forward[ps[j]].task ==> s.forward[ps[i]].index < s.forward[ps[j]].index
    {
      if j < n {
        assert CallerOf(s, h.latched[i]) != CallerOf(s, h.latched[j]);
      } else {
        assert ps[j] == h.live[j - n];
        if i < n {
          assert ps[i] == h.latched[i];
        } else {
          assert ps[i] == h.live[i - n];
        }
        assert ps[i] < ps[j];
      }
    }
    if |ps| == 1 {
      assert ps[0] == if n == 1 then h.latched[0] else h.live[0];
    }
  }

  /** Late-joining handles: whatever the interleaving with the subscriber tasks, a handle yields no
      forwarded frame twice - neither from its latched frames and its receiver, nor from one of them -
      keeps every publisher's order, without lag misses nothing forwarded since it subscribed, and with lag
      only what at least `capacity` newer frames had pushed out. */
  lemma LateJoiningHandle(capacity: nat, acts: seq<Action>, h: nat)
    requires IsRun(Init(capacity), acts) && h < |After(Init(capacity), acts).handles|
    ensures var s := After(Init(capacity), acts);
            var handle := s.handles[h];
            && handle.taken <= |handle.latched|
            && OnceInOrder(s, Yielded(handle))
            && (forall p | p in handle.latched :: p < handle.join)
            && (!handle.lagged ==>
                  && |handle.live| == handle.cursor - handle.join
                  && forall i | 0 <= i < |handle.live| :: handle.live[i] == handle.join + i)
            && (forall p | handle.join <= p < handle.cursor && p !in handle.live :: p + capacity < |s.forward|)
  {
    hide IsRun, After, OnePerAddress, ForwardOk, LatchedOk, OnceInOrder, Yielded;
    InitOk(capacity);
    RunInv(Init(capacity), acts);
    RunGrows(Init(capacity), acts);
    var s := After(Init(capacity), acts);
    assert HandleOk(s, s.handles[h]);
    YieldedInOrder(s, s.handles[h]);
    hide Inv, HandlesOk;
    HandleBounds(s, s.handles[h]);
  }

  lemma HandleBounds(s: State, h: Handle)
    requires HandleOk(s, h)
    ensures forall p | p in h.latched :: p < h.join
  {
  }

  /** The forwarding log is a merge: restricted to one connection it is that connection's frames. */
  lemma ForwardedFaithfully(capacity: nat, acts: seq<Action>, t: nat)
    requires IsRun(Init(capacity), acts) && t < |After(Init(capacity), acts).tasks|
    ensures var s := After(Init(capacity), acts); FramesOf(s.forward, t) == s.tasks[t].received
  {
    InitOk(capacity);
    RunInv(Init(capacity), acts);
  }

  // ---------------------------------------------------------------- Latched frames of gone publishers

  lemma {:induction false} Extend(s: State, acts: seq<Action>, a: Action)
    requires IsRun(s, acts) && Enabled(After(s, acts), a)
    ensures IsRun(s, acts + [a]) && After(s, acts + [a]) == Apply(After(s, acts), a)
    decreases |acts|
  {
    hide Apply, Enabled;
    if acts == [] {
      assert [a][1..] == [];
    } else {
      Extend(Apply(s, acts[0]), acts[1..], a);
      assert (acts + [a])[1..] == acts[1..] + [a];
    }
  }

  /** A latching publisher that was found, connected and sent one frame. */
  function Connected1(addr: string, caller: string): State {
    State(8, [], [Task(addr, caller, true, Running, [])], {addr}, map[], Idle, [Handle([], 0, 0, 0, false, [])])
  }

  function Forwarded1(addr: string, caller: string, frame: bytes, phase: Phase): State {
    State(8, [Forwarded(0, 0, frame)], [Task(addr, caller, true, phase, [frame])], if phase == Gone then {} else {addr},
          map[caller := 0], Idle, [Handle([], 0, 0, 0, false, [])])
  }

  lemma PublisherConnects(addr: string, caller: string) returns (acts: seq<Action>)
    ensures IsRun(Init(8), acts) && After(Init(8), acts) == Connected1(addr, caller)
  {
    var s0 := Init(8);
    assert IsRun(s0, []) && After(s0, []) == s0;
    hide IsRun, After;
    Extend(s0, [], Register([addr]));
    acts := [] + [Register([addr])];
    Extend(s0, acts, Visit);
    acts := acts + [Visit];
    assert [addr][1..] == [];
    Extend(s0, acts, Connected(caller, true));
    acts := acts + [Connected(caller, true)];
    assert {} + {addr} == {addr};
    Extend(s0, acts, FinishVisit);
    acts := acts + [FinishVisit];
  }

  lemma ForwardSteps(addr: string, caller: string, frame: bytes)
    ensures var s := Connected1(addr, caller);
            && Enabled(s, TaskReceive(0, frame))
            && Enabled(Apply(s, TaskReceive(0, frame)), Store(0))
            && Apply(Apply(s, TaskReceive(0, frame)), Store(0)) == Forwarded1(addr, caller, frame, Running)
  {
    var s1 := Apply(Connected1(addr, caller), TaskReceive(0, frame));
    assert [] + [frame] == [frame] && [] + [Forwarded(0, 0, frame)] == [Forwarded(0, 0, frame)];
    assert s1.tasks == [Task(addr, caller, true, Storing(0), [frame])];
    var s2 := Apply(s1, Store(0));
    assert s2.tasks == [Task(addr, caller, true, Running, [frame])];
    assert map[][caller := 0] == map[caller := 0];
  }

  lemma LeaveSteps(addr: string, caller: string, frame: bytes)
    requires addr != caller
    ensures var s := Forwarded1(addr, caller, frame, Running);
            && Enabled(s, TaskExit(0)) && Apply(s, TaskExit(0)) == Forwarded1(addr, caller, frame, Finished)
            && Enabled(Apply(s, TaskExit(0)), RemoveLatched(0))
            && Apply(Apply(s, TaskExit(0)), RemoveLatched(0)) == Forwarded1(addr, caller, frame, Unlatched)
            && Enabled(Forwarded1(addr, caller, frame, Unlatched), RemoveAddr(0))
            && Apply(Forwarded1(addr, caller, frame, Unlatched), RemoveAddr(0)) == Forwarded1(addr, caller, frame, Gone)
  {
    assert map[caller := 0] - {addr} == map[caller := 0];
    assert {addr} - {addr} == {};
  }

  /** That publisher after its frame was forwarded and stored and its connection has ended. */
  lemma PublisherLeaves(addr: string, caller: string, frame: bytes) returns (acts: seq<Action>)
    requires addr != caller
    ensures IsRun(Init(8), acts) && After(Init(8), acts) == Forwarded1(addr, caller, frame, Gone)
  {
    var s0 := Init(8);
    acts := PublisherConnects(addr, caller);
    ForwardSteps(addr, caller, frame);
    LeaveSteps(addr, caller, frame);
    hide IsRun, After, Apply, Enabled, Connected1, Forwarded1;
    Extend(s0, acts, TaskReceive(0, frame));
    Extend(s0, acts + [TaskReceive(0, frame)], Store(0));
    acts := acts + [TaskReceive(0, frame)] + [Store(0)];
    Extend(s0, acts, TaskExit(0));
    Extend(s0, acts + [TaskExit(0)], RemoveLatched(0));
    acts := acts + [TaskExit(0)] + [RemoveLatched(0)];
    Extend(s0, acts, RemoveAddr(0));
    acts := acts + [RemoveAddr(0)];
  }

  lemma LateHandleSteps(addr: string, caller: string, frame: bytes)
    ensures var s := Forwarded1(addr, caller, frame, Gone);
            && Enabled(s, TakeSnapshot([caller]))
            && Apply(s, TakeSnapshot([caller])) == s.(actor := Snapshotted([0]))
            && Enabled(s.(actor := Snapshotted([0])), Subscribe)
            && Apply(s.(actor := Snapshotted([0])), Subscribe) ==
               s.(handles := [Handle([], 0, 0, 0, false, []), Handle([0], 0, 1, 1, false, [])])
  {
    assert Lists([caller], map[caller := 0].Keys);
    assert PositionsOf(map[caller := 0], [caller]) == [0];
  }

  /** So a handle made after a publisher has gone is still given that publisher's frame, whenever the
      publisher's address differs from its caller id. */
  lemma GonePublisherReplayed(addr: string, caller: string, frame: bytes)
    requires addr != caller
    ensures exists acts :: IsRun(Init(8), acts) &&
              After(Init(8), acts) == Forwarded1(addr, caller, frame, Gone)
                .(handles := [Handle([], 0, 0, 0, false, []), Handle([0], 0, 1, 1, false, [])])
  {
    var s0 := Init(8);
    var acts := PublisherLeaves(addr, caller, frame);
    LateHandleSteps(addr, caller, frame);
    hide IsRun, After, Apply, Enabled;
    Extend(s0, acts, TakeSnapshot([caller]));
    Extend(s0, acts + [TakeSnapshot([caller])], Subscribe);
  }
}
