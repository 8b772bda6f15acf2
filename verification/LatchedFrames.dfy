/** Which latched frame a late handle is given: what stays stored, what is lost, and what comes too late.
    Frames are stored under their publisher's caller id and removed under an exiting task's address. */
module LatchedFrames {
  import opened Broadcast
  import opened Bytes
  import opened Subscription

  /** The frame stored under the task's caller id is one it received. */
  predicate LatchedBy(s: State, t: nat) {
    && t < |s.tasks| && s.tasks[t].callerId in s.latched
    && s.latched[s.tasks[t].callerId] < |s.forward| && s.forward[s.latched[s.tasks[t].callerId]].task == t
  }

  /** Another publisher with the same caller id stores a frame, or a publisher at that address leaves. */
  predicate Displaces(s: State, a: Action, t: nat)
    requires t < |s.tasks|
  {
    match a
    case Store(u) => u != t && u < |s.tasks| && s.tasks[u].callerId == s.tasks[t].callerId
    case RemoveLatched(u) => u < |s.tasks| && s.tasks[u].addr == s.tasks[t].callerId
    case _ => false
  }

  predicate Undisturbed(s: State, acts: seq<Action>, t: nat)
    requires t < |s.tasks|
  {
    forall k | 0 <= k < |acts| :: !Displaces(s, acts[k], t)
  }

  lemma InvParts(s: State)
    requires Inv(s)
    ensures LatchedOk(s) && ForwardOk(s)
  {
  }

  lemma LatchedUnchanged(s: State, s': State, t: nat)
    requires LatchedOk(s) && Grew(s, s') && s'.latched == s.latched
    ensures LatchedBy(s', t) == LatchedBy(s, t)
  {
    assert forall p | 0 <= p < |s.forward| :: s'.forward[p] == s'.forward[..|s.forward|][p] == s.forward[p];
  }

  lemma OnlyTwoTouchLatched(s: State, a: Action)
    requires Enabled(s, a) && !a.Store? && !a.RemoveLatched?
    ensures Apply(s, a).latched == s.latched
  {
  }

  /** One step: a task's frame is stored by it, and stays until it is displaced. */
  lemma LatchedStep(s: State, a: Action, t: nat)
    requires LatchedOk(s) && Enabled(s, a)
    ensures LatchedBy(Apply(s, a), t) <==> a == Store(t) || (LatchedBy(s, t) && !Displaces(s, a, t))
  {
    hide Receiving, Receive, OnePerCaller, Lists;
    if !a.Store? && !a.RemoveLatched? {
      hide LatchedBy, LatchedOk, Apply, Enabled, Grew;
      StepGrows(s, a);
      OnlyTwoTouchLatched(s, a);
      LatchedUnchanged(s, Apply(s, a), t);
    }
  }

  lemma SameDisplaced(s: State, s': State, a: Action, t: nat)
    requires Grew(s, s') && t < |s.tasks| && Enabled(s, a)
    ensures Displaces(s', a, t) == Displaces(s, a, t)
  {
    hide Lists, Receive;
  }

  lemma {:induction false} LatchedFrom(s: State, acts: seq<Action>, t: nat)
    requires Inv(s) && IsRun(s, acts) && t < |s.tasks| && Store(t) !in acts
    ensures Grew(s, After(s, acts))
    ensures LatchedBy(After(s, acts), t) <==> LatchedBy(s, t) && Undisturbed(After(s, acts), acts, t)
    decreases |acts|
  {
    hide Inv, Apply, Enabled, LatchedBy, Displaces, Grew;
    RunGrows(s, acts);
    assert t < |After(s, acts).tasks| by { GrewTasks(s, After(s, acts)); }
    if acts != [] {
      var s1 := Apply(s, acts[0]);
      InvParts(s);
      InvStep(s, acts[0]);
      LatchedStep(s, acts[0], t);
      SameDisplaced(s, After(s, acts), acts[0], t);
      StepGrows(s, acts[0]);
      GrewTasks(s, s1);
      LatchedFrom(s1, acts[1..], t);
      assert forall k | 0 <= k < |acts[1..]| :: acts[1..][k] == acts[k + 1];
      assert Undisturbed(After(s, acts), acts, t) <==>
             !Displaces(After(s, acts), acts[0], t) && Undisturbed(After(s, acts), acts[1..], t);
    }
  }

  lemma GrewTasks(s: State, s': State)
    requires Grew(s, s')
    ensures |s.tasks| <= |s'.tasks|
  {
  }

  lemma {:induction false} RunSplit(s: State, acts: seq<Action>, k: nat)
    requires IsRun(s, acts) && k <= |acts|
    ensures IsRun(s, acts[..k]) && IsRun(After(s, acts[..k]), acts[k..])
    ensures After(After(s, acts[..k]), acts[k..]) == After(s, acts)
    decreases |acts|
  {
    hide Apply, Enabled;
    if k == 0 {
      assert acts[..0] == [] && acts[0..] == acts;
    } else {
      RunSplit(Apply(s, acts[0]), acts[1..], k - 1);
      assert acts[..k][0] == acts[0] && acts[..k][1..] == acts[1..][..k - 1] && acts[1..][k - 1..] == acts[k..];
    }
  }

  /** Over every run: after a publisher's last `Store`, the frame stored under its caller id is still its
      own exactly if no other publisher of that caller id has stored one since and none at that address has
      left since - itself included. Whether the publisher is still there makes no difference. */
  lemma StillLatchedExact(capacity: nat, acts: seq<Action>, t: nat, k: nat)
    requires IsRun(Init(capacity), acts) && t < |After(Init(capacity), acts).tasks|
    requires k < |acts| && acts[k] == Store(t) && forall j | k < j < |acts| :: acts[j] != Store(t)
    ensures var s := After(Init(capacity), acts);
            LatchedBy(s, t) <==> forall j | k < j < |acts| :: !Displaces(s, acts[j], t)
  {
    hide Inv, Apply, Enabled, LatchedBy, Displaces, Grew, LatchedOk, ForwardOk;
    var s0 := Init(capacity);
    RunSplit(s0, acts, k);
    var before := After(s0, acts[..k]);
    InitOk(capacity);
    RunInv(s0, acts[..k]);
    InvParts(before);
    assert acts[k..][0] == Store(t) && acts[k..][1..] == acts[k + 1..];
    InvStep(before, Store(t));
    LatchedStep(before, Store(t), t);
    assert t < |Apply(before, Store(t)).tasks| by { StoredTask(before, t); }
    LatchedFrom(Apply(before, Store(t)), acts[k + 1..], t);
    var rest := acts[k + 1..];
    assert forall i | 0 <= i < |rest| :: rest[i] == acts[k + 1..][i];
    assert forall j | k < j < |acts| :: acts[j] == acts[k + 1..][j - k - 1];
  }

  lemma StoredTask(s: State, t: nat)
    requires Enabled(s, Store(t))
    ensures t < |Apply(s, Store(t)).tasks|
  {
  }

  /** A publisher that stored nothing has nothing stored. */
  lemma {:induction false} NothingStored(s: State, acts: seq<Action>, t: nat)
    requires Inv(s) && IsRun(s, acts) && Store(t) !in acts && !LatchedBy(s, t)
    ensures !LatchedBy(After(s, acts), t)
    decreases |acts|
  {
    hide Inv, Apply, Enabled, LatchedBy, LatchedOk, ForwardOk;
    if acts != [] {
      InvParts(s);
      InvStep(s, acts[0]);
      LatchedStep(s, acts[0], t);
      NothingStored(Apply(s, acts[0]), acts[1..], t);
    }
  }

  // ---------------------------------------------------------------- What a late handle is given

  /** The actor's snapshot has a frame of the publisher exactly if one is stored. */
  lemma SnapshotExact(s: State, callers: seq<string>, t: nat)
    requires LatchedOk(s) && Enabled(s, TakeSnapshot(callers))
    ensures (exists p | p in PositionsOf(s.latched, callers) :: p < |s.forward| && s.forward[p].task == t) <==>
            LatchedBy(s, t)
  {
    var ps := PositionsOf(s.latched, callers);
    if LatchedBy(s, t) {
      var c := s.tasks[t].callerId;
      assert c in s.latched.Keys;
      var i :| 0 <= i < |callers| && callers[i] == c;
      assert ps[i] == s.latched[c] && ps[i] in ps;
    }
    if p :| p in ps && p < |s.forward| && s.forward[p].task == t {
      var i :| 0 <= i < |ps| && ps[i] == p;
      assert callers[i] in callers && callers[i] in s.latched;
      assert CallerOf(s, p) == callers[i];
    }
  }

  /** So a handle made after a publisher has gone is given its frame exactly if nothing displaced it. */
  lemma GoneReplayedExact(capacity: nat, acts: seq<Action>, t: nat, k: nat, callers: seq<string>)
    requires IsRun(Init(capacity), acts) && In(After(Init(capacity), acts), t, Gone)
    requires k < |acts| && acts[k] == Store(t) && forall j | k < j < |acts| :: acts[j] != Store(t)
    requires Enabled(After(Init(capacity), acts), TakeSnapshot(callers))
    ensures var s := After(Init(capacity), acts);
            (exists p | p in PositionsOf(s.latched, callers) :: p < |s.forward| && s.forward[p].task == t) <==>
            forall j | k < j < |acts| :: !Displaces(s, acts[j], t)
  {
    hide Enabled, Displaces, LatchedBy, Inv, LatchedOk, ForwardOk, PositionsOf;
    StillLatchedExact(capacity, acts, t, k);
    InitOk(capacity);
    RunInv(Init(capacity), acts);
    InvParts(After(Init(capacity), acts));
    SnapshotExact(After(Init(capacity), acts), callers, t);
  }

  /** No publisher's address is a publisher's caller id. */
  predicate AddressesApart(s: State) {
    forall t, u | 0 <= t < |s.tasks| && 0 <= u < |s.tasks| :: s.tasks[t].addr != s.tasks[u].callerId
  }

  /** Every publisher's address is its own caller id. */
  predicate AddressesAreIds(s: State) {
    forall t | 0 <= t < |s.tasks| :: s.tasks[t].addr == s.tasks[t].callerId
  }

  lemma AddressesEarlier(s: State, s': State)
    requires Grew(s, s')
    ensures AddressesApart(s') ==> AddressesApart(s)
    ensures AddressesAreIds(s') ==> AddressesAreIds(s)
  {
    forall t | 0 <= t < |s.tasks| ensures s.tasks[t].addr == s'.tasks[t].addr && s.tasks[t].callerId == s'.tasks[t].callerId {
    }
  }

  lemma KeysStep(s: State, a: Action)
    requires LatchedOk(s) && Enabled(s, a) && AddressesApart(s)
    ensures s.latched.Keys <= Apply(s, a).latched.Keys
  {
    hide Lists, Receive, Receiving, OnePerCaller;
    if a.RemoveLatched? {
      forall c | c in s.latched ensures c != s.tasks[a.t].addr {
        assert CallerOf(s, s.latched[c]) == c;
      }
    }
  }

  lemma {:induction false} KeysFrom(s: State, acts: seq<Action>)
    requires Inv(s) && IsRun(s, acts) && AddressesApart(After(s, acts))
    ensures s.latched.Keys <= After(s, acts).latched.Keys
    decreases |acts|
  {
    hide Inv, Apply, Enabled, AddressesApart, Grew, LatchedOk, ForwardOk;
    if acts != [] {
      InvParts(s);
      InvStep(s, acts[0]);
      RunGrows(s, acts);
      AddressesEarlier(s, After(s, acts));
      KeysStep(s, acts[0]);
      KeysFrom(Apply(s, acts[0]), acts[1..]);
    }
  }

  /** If no address is a caller id - as when addresses are URLs - no stored frame is ever dropped: whatever
      caller id once had one has one for good, its publishers gone or not. */
  lemma NeverDropped(capacity: nat, acts: seq<Action>, n: nat)
    requires IsRun(Init(capacity), acts) && n <= |acts| && AddressesApart(After(Init(capacity), acts))
    requires IsRun(Init(capacity), acts[..n])
    ensures After(Init(capacity), acts[..n]).latched.Keys <= After(Init(capacity), acts).latched.Keys
  {
    hide Inv, Apply, Enabled, AddressesApart;
    RunSplit(Init(capacity), acts, n);
    InitOk(capacity);
    RunInv(Init(capacity), acts[..n]);
    KeysFrom(After(Init(capacity), acts[..n]), acts[n..]);
  }

  /** The publisher a stored frame came from has not left. */
  predicate PublishersStay(s: State) {
    forall c | c in s.latched ::
      && Known(s, s.latched[c])
      && s.tasks[s.forward[s.latched[c]].task].phase != Unlatched && s.tasks[s.forward[s.latched[c]].task].phase != Gone
  }

  lemma StayStep(s: State, a: Action)
    requires LatchedOk(s) && Enabled(s, a) && AddressesAreIds(s) && PublishersStay(s)
    ensures PublishersStay(Apply(s, a))
  {
    hide Lists, Receive, Receiving, OnePerCaller;
    var s' := Apply(s, a);
    StepGrows(s, a);
    forall c | c in s.latched ensures Known(s', s.latched[c]) && s'.forward[s.latched[c]] == s.forward[s.latched[c]] {
      KnownGrows(s, s', s.latched[c]);
    }
    if a.RemoveLatched? {
      forall c | c in s'.latched ensures s.forward[s.latched[c]].task != a.t {
        assert CallerOf(s, s.latched[c]) == c;
      }
    }
  }

  lemma {:induction false} StayFrom(s: State, acts: seq<Action>)
    requires Inv(s) && IsRun(s, acts) && AddressesAreIds(After(s, acts)) && PublishersStay(s)
    ensures PublishersStay(After(s, acts))
    decreases |acts|
  {
    hide Inv, Apply, Enabled, AddressesAreIds, Grew, LatchedOk, ForwardOk, PublishersStay;
    if acts != [] {
      InvParts(s);
      InvStep(s, acts[0]);
      RunGrows(s, acts);
      AddressesEarlier(s, After(s, acts));
      StayStep(s, acts[0]);
      StayFrom(Apply(s, acts[0]), acts[1..]);
    }
  }

  /** If every address is its publisher's caller id, a snapshot never has a frame of a publisher gone. */
  lemma NoneGoneReplayed(capacity: nat, acts: seq<Action>, callers: seq<string>, t: nat)
    requires IsRun(Init(capacity), acts) && AddressesAreIds(After(Init(capacity), acts))
    requires In(After(Init(capacity), acts), t, Gone) && Enabled(After(Init(capacity), acts), TakeSnapshot(callers))
    ensures var s := After(Init(capacity), acts);
            forall p | p in PositionsOf(s.latched, callers) :: p < |s.forward| && s.forward[p].task != t
  {
    hide Inv, AddressesAreIds, Enabled, ForwardOk;
    InitOk(capacity);
    RunInv(Init(capacity), acts);
    var s := After(Init(capacity), acts);
    InvParts(s);
    StayFrom(Init(capacity), acts);
    SnapshotExact(s, callers, t);
    SnapshotKeeps(s, callers);
  }

  // ---------------------------------------------------------------- A leaving publisher drops another's frame

  /** Two publishers found together, the second with the first one's address for its caller id. */
  function Pair(x: string, y: string, second: Phase, first: Phase, frames: seq<bytes>): State {
    State(8, seq(|frames|, i requires 0 <= i < |frames| => Forwarded(1, i, frames[i])),
          [Task(x, "/first", false, first, []), Task(y, x, true, second, frames)], {x, y}, map[], Idle,
          [Handle([], 0, 0, 0, false, [])])
  }

  lemma PairConnects(x: string, y: string) returns (acts: seq<Action>)
    requires x != y
    ensures IsRun(Init(8), acts) && After(Init(8), acts) == Pair(x, y, Running, Running, [])
  {
    var s0 := Init(8);
    assert IsRun(s0, []) && After(s0, []) == s0;
    hide IsRun, After, Lists, Receive, Receiving, PositionsOf;
    Extend(s0, [], Register([x, y]));
    acts := [] + [Register([x, y])];
    Extend(s0, acts, Visit);
    acts := acts + [Visit];
    assert [x, y][1..] == [y];
    Extend(s0, acts, Connected("/first", false));
    acts := acts + [Connected("/first", false)];
    assert After(s0, acts) == State(8, [], [Task(x, "/first", false, Running, [])], {x}, map[], Visiting([y]),
                                    [Handle([], 0, 0, 0, false, [])]);
    Extend(s0, acts, Visit);
    acts := acts + [Visit];
    assert [y][1..] == [];
    Extend(s0, acts, Connected(x, true));
    acts := acts + [Connected(x, true)];
    Extend(s0, acts, FinishVisit);
    acts := acts + [FinishVisit];
  }

  lemma PairSteps(x: string, y: string, frame: bytes)
    ensures var s0 := Pair(x, y, Running, Running, []);
            var stored := Pair(x, y, Running, Running, [frame]).(latched := map[x := 0]);
            && Enabled(s0, TaskReceive(1, frame))
            && Enabled(Apply(s0, TaskReceive(1, frame)), Store(1))
            && Apply(Apply(s0, TaskReceive(1, frame)), Store(1)) == stored
            && Enabled(stored, TaskExit(0)) && Enabled(Apply(stored, TaskExit(0)), RemoveLatched(0))
            && Apply(Apply(stored, TaskExit(0)), RemoveLatched(0)) == Pair(x, y, Running, Unlatched, [frame])
  {
    hide Lists, Receive, Receiving, PositionsOf;
    var s0, stored := Pair(x, y, Running, Running, []), Pair(x, y, Running, Running, [frame]).(latched := map[x := 0]);
    assert [] + [frame] == [frame];
    assert Apply(s0, TaskReceive(1, frame)) == Pair(x, y, Storing(0), Running, [frame]);
    assert Apply(stored, TaskExit(0)) == Pair(x, y, Running, Finished, [frame]).(latched := map[x := 0]);
    assert map[x := 0] - {x} == map[];
  }

  /** The exit of one publisher takes away the latched frame of another that is still there, when its
      address is the other's caller id: a handle made now is given nothing. */
  lemma RunningPublisherDropped(x: string, y: string, frame: bytes) returns (acts: seq<Action>)
    requires x != y
    ensures IsRun(Init(8), acts)
    ensures var s := After(Init(8), acts);
            && |s.tasks| == 2 && s.tasks[1] == Task(y, x, true, Running, [frame])
            && s.forward == [Forwarded(1, 0, frame)] && s.latched == map[]
  {
    var s0 := Init(8);
    acts := PairConnects(x, y);
    PairSteps(x, y, frame);
    hide IsRun, After, Apply, Enabled;
    Extend(s0, acts, TaskReceive(1, frame));
    acts := acts + [TaskReceive(1, frame)];
    Extend(s0, acts, Store(1));
    acts := acts + [Store(1)];
    Extend(s0, acts, TaskExit(0));
    acts := acts + [TaskExit(0)];
    Extend(s0, acts, RemoveLatched(0));
    acts := acts + [RemoveLatched(0)];
  }

  // ---------------------------------------------------------------- The newest frame

  /** The last frame the task forwarded. */
  predicate Newest(s: State, p: nat, t: nat) {
    p < |s.forward| && s.forward[p].task == t && forall q | p < q < |s.forward| :: s.forward[q].task != t
  }

  /** Frames are stored in the order they are forwarded, each right after it. */
  predicate StoresFollow(s: State) {
    && (forall t | 0 <= t < |s.tasks| && s.tasks[t].phase.Storing? ::
          s.tasks[t].latching && Newest(s, s.tasks[t].phase.position, t))
    && (forall c | c in s.latched :: StoredLast(s, s.latched[c]))
  }

  predicate StoredLast(s: State, q: nat) {
    && Known(s, q)
    && var k := s.tasks[s.forward[q].task];
       k.latching && (if k.phase.Storing? then q < k.phase.position else Newest(s, q, s.forward[q].task))
  }

  lemma StoresReceive(s: State, t: nat, frame: bytes)
    requires StoresFollow(s) && Enabled(s, TaskReceive(t, frame))
    ensures StoresFollow(Apply(s, TaskReceive(t, frame)))
  {
    hide Lists, Receive, Receiving;
    var s' := Apply(s, TaskReceive(t, frame));
    forall c | c in s'.latched ensures StoredLast(s', s'.latched[c]) {
      assert StoredLast(s, s.latched[c]);
    }
  }

  lemma StoresStore(s: State, t: nat)
    requires LatchedOk(s) && StoresFollow(s) && Enabled(s, Store(t))
    ensures StoresFollow(Apply(s, Store(t)))
  {
    hide OnePerCaller;
    var s', mine := Apply(s, Store(t)), s.tasks[t].callerId;
    forall c | c in s'.latched ensures StoredLast(s', s'.latched[c]) {
      if c != mine {
        assert StoredLast(s, s.latched[c]) && CallerOf(s, s.latched[c]) == c;
      }
    }
  }

  lemma StoresOther(s: State, a: Action)
    requires StoresFollow(s) && Enabled(s, a) && !a.TaskReceive? && !a.Store?
    ensures StoresFollow(Apply(s, a))
  {
    hide Lists, Receive, Receiving;
    var s' := Apply(s, a);
    assert s'.forward == s.forward && |s'.tasks| >= |s.tasks|;
    forall t | 0 <= t < |s.tasks|
      ensures s'.tasks[t].phase.Storing? == s.tasks[t].phase.Storing? && s'.tasks[t].latching == s.tasks[t].latching
      ensures s.tasks[t].phase.Storing? ==> s'.tasks[t].phase == s.tasks[t].phase
    {
    }
    hide Apply, Enabled;
    forall c | c in s'.latched ensures c in s.latched && s'.latched[c] == s.latched[c] && StoredLast(s', s'.latched[c]) {
      LatchedShrinks(s, a, c);
      assert StoredLast(s, s.latched[c]);
    }
    forall t | 0 <= t < |s'.tasks| && s'.tasks[t].phase.Storing?
      ensures s'.tasks[t].latching && Newest(s', s'.tasks[t].phase.position, t)
    {
      if t >= |s.tasks| {
        NewTasksRun(s, a, t);
      }
    }
  }

  lemma LatchedShrinks(s: State, a: Action, c: string)
    requires Enabled(s, a) && !a.Store? && c in Apply(s, a).latched
    ensures c in s.latched && Apply(s, a).latched[c] == s.latched[c]
  {
    hide Lists, Receive, Receiving;
  }

  lemma NewTasksRun(s: State, a: Action, t: nat)
    requires Enabled(s, a) && |s.tasks| <= t < |Apply(s, a).tasks|
    ensures Apply(s, a).tasks[t].phase == Running
  {
    hide Lists, Receive, Receiving;
  }

  lemma {:induction false} StoresFrom(s: State, acts: seq<Action>)
    requires Inv(s) && StoresFollow(s) && IsRun(s, acts)
    ensures StoresFollow(After(s, acts))
    decreases |acts|
  {
    hide Inv, Apply, Enabled, StoresFollow, LatchedOk, ForwardOk;
    if acts != [] {
      InvParts(s);
      InvStep(s, acts[0]);
      match acts[0] {
        case TaskReceive(t, frame) => StoresReceive(s, t, frame);
        case Store(t) => StoresStore(s, t);
        case _ => StoresOther(s, acts[0]);
      }
      StoresFrom(Apply(s, acts[0]), acts[1..]);
    }
  }

  /** A latching publisher that never finished storing is still storing its first frame. */
  predicate FirstIsDue(s: State, t: nat) {
    t < |s.tasks| && s.tasks[t].latching && s.tasks[t].received != [] ==> s.tasks[t].phase.Storing?
  }

  lemma FirstIsDueStep(s: State, a: Action, t: nat)
    requires Enabled(s, a) && FirstIsDue(s, t) && a != Store(t)
    ensures FirstIsDue(Apply(s, a), t)
  {
    hide Lists, Receive, Receiving;
  }

  lemma {:induction false} FirstIsDueFrom(s: State, acts: seq<Action>, t: nat)
    requires IsRun(s, acts) && FirstIsDue(s, t) && Store(t) !in acts
    ensures FirstIsDue(After(s, acts), t)
    decreases |acts|
  {
    hide Apply, Enabled, FirstIsDue;
    if acts != [] {
      FirstIsDueStep(s, acts[0], t);
      FirstIsDueFrom(Apply(s, acts[0]), acts[1..], t);
    }
  }

  /** Whatever displaced a frame of the publisher, the publisher stored one afterwards. */
  ghost predicate StoredSince(s: State, acts: seq<Action>, t: nat)
    requires t < |s.tasks|
  {
    forall j | 0 <= j < |acts| && Displaces(s, acts[j], t) :: exists i :: j < i < |acts| && acts[i] == Store(t)
  }

  lemma LastStore(acts: seq<Action>, t: nat) returns (k: nat)
    requires Store(t) in acts
    ensures k < |acts| && acts[k] == Store(t) && forall j | k < j < |acts| :: acts[j] != Store(t)
  {
    k := |acts| - 1;
    if acts[k] != Store(t) {
      k := LastStore(acts[..k], t);
    }
  }

  /** Once a latching publisher has forwarded something and is not at storing it, its frame is the stored
      one exactly if it was stored since the last displacement. */
  lemma LatchedExact(capacity: nat, acts: seq<Action>, t: nat)
    requires IsRun(Init(capacity), acts)
    requires var s := After(Init(capacity), acts);
             t < |s.tasks| && s.tasks[t].latching && s.tasks[t].received != [] && !s.tasks[t].phase.Storing?
    ensures var s := After(Init(capacity), acts);
            LatchedBy(s, t) <==> StoredSince(s, acts, t)
  {
    hide IsRun, After, LatchedBy;
    var s := After(Init(capacity), acts);
    if Store(t) !in acts {
      FirstIsDueFrom(Init(capacity), acts, t);
      assert false;
    }
    var k := LastStore(acts, t);
    StillLatchedExact(capacity, acts, t, k);
    assert !Displaces(s, acts[k], t);
  }

  /** In any reachable state the snapshot has a publisher's newest frame exactly if one of its frames is
      stored and it is not storing at the moment. */
  lemma NewestInSnapshot(s: State, callers: seq<string>, t: nat, p: nat)
    requires LatchedOk(s) && StoresFollow(s) && Enabled(s, TakeSnapshot(callers)) && Newest(s, p, t) && t < |s.tasks|
    ensures p in PositionsOf(s.latched, callers) <==> LatchedBy(s, t) && !s.tasks[t].phase.Storing?
  {
    var ps := PositionsOf(s.latched, callers);
    if p in ps {
      SnapshotExact(s, callers, t);
      var i :| 0 <= i < |ps| && ps[i] == p;
      assert callers[i] in callers && callers[i] in s.latched;
      assert StoredLast(s, s.latched[callers[i]]);
    }
    if LatchedBy(s, t) && !s.tasks[t].phase.Storing? {
      var c := s.tasks[t].callerId;
      assert StoredLast(s, s.latched[c]) && s.latched[c] == p;
      assert c in s.latched.Keys;
      var i :| 0 <= i < |callers| && callers[i] == c;
      assert ps[i] == p;
    }
  }

  /** Between its snapshot and its subscription the actor does nothing else. */
  lemma {:induction false} StaysSnapshotted(s: State, acts: seq<Action>)
    requires IsRun(s, acts) && s.actor.Snapshotted? && Subscribe !in acts
    ensures After(s, acts).actor == s.actor
    decreases |acts|
  {
    hide Apply, Enabled;
    if acts != [] {
      ActorWaits(s, acts[0]);
      StaysSnapshotted(Apply(s, acts[0]), acts[1..]);
    }
  }

  lemma ActorWaits(s: State, a: Action)
    requires Enabled(s, a) && s.actor.Snapshotted? && a != Subscribe
    ensures Apply(s, a).actor == s.actor
  {
    hide Lists, Receive, Receiving;
  }

  lemma NewestBefore(s: State, s': State, p: nat, t: nat)
    requires Grew(s, s') && Newest(s', p, t) && p < |s.forward|
    ensures Newest(s, p, t)
  {
    assert forall q | 0 <= q < |s.forward| :: s.forward[q] == s'.forward[..|s.forward|][q] == s'.forward[q];
  }

  lemma SnapshotIsOld(s: State, callers: seq<string>)
    requires OnePerCaller(s, PositionsOf(s.latched, callers), |s.forward|)
    ensures forall p | p in PositionsOf(s.latched, callers) :: p < |s.forward|
  {
  }

  lemma Reached(capacity: nat, acts: seq<Action>)
    requires IsRun(Init(capacity), acts)
    ensures var s := After(Init(capacity), acts); Inv(s) && StoresFollow(s)
  {
    hide Inv, Enabled, Apply;
    InitOk(capacity);
    RunInv(Init(capacity), acts);
    StoresFrom(Init(capacity), acts);
  }

  lemma OnlyLatchingStore(s: State, callers: seq<string>, t: nat, p: nat)
    requires LatchedOk(s) && StoresFollow(s) && Enabled(s, TakeSnapshot(callers)) && Newest(s, p, t) && t < |s.tasks|
    requires p in PositionsOf(s.latched, callers)
    ensures s.tasks[t].latching
  {
    SnapshotExact(s, callers, t);
    assert StoredLast(s, s.latched[s.tasks[t].callerId]);
  }

  /** The snapshot has a publisher's newest frame exactly under these conditions. */
  lemma SnapshotHasNewest(capacity: nat, acts: seq<Action>, callers: seq<string>, t: nat, p: nat)
    requires IsRun(Init(capacity), acts) && Enabled(After(Init(capacity), acts), TakeSnapshot(callers))
    requires t < |After(Init(capacity), acts).tasks| && Newest(After(Init(capacity), acts), p, t)
    ensures var s := After(Init(capacity), acts);
            p in PositionsOf(s.latched, callers) <==>
            s.tasks[t].latching && !s.tasks[t].phase.Storing? && StoredSince(s, acts, t)
  {
    hide Inv, Enabled, IsRun, After, StoresFollow, LatchedBy, PositionsOf, IndexesOk, FramesOf, LatchedOk, Newest,
         StoredSince;
    var s := After(Init(capacity), acts);
    Reached(capacity, acts);
    InvParts(s);
    NewestKnown(s, p, t);
    ReceivedSomething(s, p);
    NewestInSnapshot(s, callers, t, p);
    if p in PositionsOf(s.latched, callers) {
      OnlyLatchingStore(s, callers, t, p);
    }
    if s.tasks[t].latching && !s.tasks[t].phase.Storing? {
      LatchedExact(capacity, acts, t);
    }
  }

  lemma ReceivedSomething(s: State, p: nat)
    requires IndexesOk(s) && p < |s.forward|
    ensures s.forward[p].task < |s.tasks| && s.tasks[s.forward[p].task].received != []
  {
  }

  /** A handle that joins later: whatever happened before and whatever happens between the actor's
      snapshot and its subscription, the newest frame forwarded for a publisher comes before the handle's
      receiver, and is among the handle's latched frames exactly if it was forwarded before the snapshot by
      a latching publisher that was not between sending and storing then and that had stored a frame since
      anything last displaced one of its. */
  lemma HandOverExact(capacity: nat, acts: seq<Action>, callers: seq<string>, more: seq<Action>, t: nat, p: nat)
    requires IsRun(Init(capacity), acts) && Enabled(After(Init(capacity), acts), TakeSnapshot(callers))
    requires IsRun(Apply(After(Init(capacity), acts), TakeSnapshot(callers)), more) && Subscribe !in more
    requires Newest(After(Apply(After(Init(capacity), acts), TakeSnapshot(callers)), more), p, t)
    ensures var s := After(Init(capacity), acts);
            var s' := After(Apply(s, TakeSnapshot(callers)), more);
            && Enabled(s', Subscribe)
            && var h := Apply(s', Subscribe).handles[|s'.handles|];
               && p < h.join
               && (p in h.latched <==>
                   && p < |s.forward| && t < |s.tasks|
                   && s.tasks[t].latching && !s.tasks[t].phase.Storing? && StoredSince(s, acts, t))
  {
    hide Inv, Lists, Receive, Receiving, Displaces, StoresFollow, LatchedBy, PositionsOf, IndexesOk, FramesOf, StoredSince,
         LatchedOk, Newest, OnePerCaller;
    var s := After(Init(capacity), acts);
    var s1 := Apply(s, TakeSnapshot(callers));
    var s' := After(s1, more);
    Reached(capacity, acts);
    InvParts(s);
    RunGrows(s1, more);
    StaysSnapshotted(s1, more);
    SnapshotKeeps(s, callers);
    SnapshotIsOld(s, callers);
    assert p < |s'.forward| by { NewestKnown(s', p, t); }
    if p < |s.forward| {
      assert Grew(s, s');
      NewestBefore(s, s', p, t);
      NewestKnown(s, p, t);
      ReceivedSomething(s, p);
      SnapshotHasNewest(capacity, acts, callers, t, p);
    }
  }

  lemma NewestKnown(s: State, p: nat, t: nat)
    requires Newest(s, p, t)
    ensures p < |s.forward| && s.forward[p].task == t
  {
  }

  /** A publisher's first and only frame is sent to the handles there are, and stored only after a late
      handle was made: the late handle is given it neither as latched nor live. */
  lemma LateHandleMissesFrame(addr: string, caller: string, frame: bytes) returns (acts: seq<Action>)
    ensures IsRun(Init(8), acts)
    ensures var s := After(Init(8), acts);
            && |s.handles| == 2 && s.handles[1] == Handle([], 0, 1, 1, false, [])
            && s.forward == [Forwarded(0, 0, frame)] && s.latched == map[caller := 0]
            && s.tasks == [Task(addr, caller, true, Running, [frame])]
  {
    var s0 := Init(8);
    acts := PublisherConnects(addr, caller);
    MissedSteps(addr, caller, frame);
    hide IsRun, After, Apply, Enabled;
    Extend(s0, acts, TaskReceive(0, frame));
    acts := acts + [TaskReceive(0, frame)];
    Extend(s0, acts, TakeSnapshot([]));
    acts := acts + [TakeSnapshot([])];
    Extend(s0, acts, Subscribe);
    acts := acts + [Subscribe];
    Extend(s0, acts, Store(0));
    acts := acts + [Store(0)];
  }

  lemma MissedSteps(addr: string, caller: string, frame: bytes)
    ensures var s1 := Connected1(addr, caller);
            && Enabled(s1, TaskReceive(0, frame))
            && var s2 := Apply(s1, TaskReceive(0, frame));
               && Enabled(s2, TakeSnapshot([]))
               && var s3 := Apply(s2, TakeSnapshot([]));
                  && Enabled(s3, Subscribe)
                  && var s4 := Apply(s3, Subscribe);
                     && Enabled(s4, Store(0))
                     && Apply(s4, Store(0)) ==
                        State(8, [Forwarded(0, 0, frame)], [Task(addr, caller, true, Running, [frame])], {addr},
                              map[caller := 0], Idle, [Handle([], 0, 0, 0, false, []), Handle([], 0, 1, 1, false, [])])
  {
    hide Receive, Receiving;
    var s2 := Apply(Connected1(addr, caller), TaskReceive(0, frame));
    assert [] + [frame] == [frame] && [] + [Forwarded(0, 0, frame)] == [Forwarded(0, 0, frame)];
    assert s2 == State(8, [Forwarded(0, 0, frame)], [Task(addr, caller, true, Storing(0), [frame])], {addr}, map[], Idle,
                       [Handle([], 0, 0, 0, false, [])]);
    assert Lists([], s2.latched.Keys);
    assert PositionsOf(s2.latched, []) == [];
  }
}
