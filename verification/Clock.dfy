/** The simulated-clock timers as a state machine. A sleeper's poll is cut at every point where it
    reads or writes shared state (the time, the channel's closed flag, its waker, the channel), the
    clock task at every message it takes and every waker it notifies; any interleaving is a run. */
module Clock {
  import opened ClockTime
  import opened Seqs

  /** A timer entry: who to wake, and when. */
  datatype Entry = Entry(sleeper: nat, deadline: Time)

  /** Where a sleeper stands in `poll`. */
  datatype Pc = Idle | AtClosedCheck | AtRegister | AtSend

  datatype Sleeper = Sleeper(
    deadline: Time,
    pc: Pc,
    hasSink: bool,     // the future's `waker` field is set
    registered: bool,  // a task waker is registered in the sink
    woken: bool,       // the executor owes its task a poll
    ready: bool        // `poll` returned Ready
  )

  datatype Mode = Waiting | Ticking | Leaving | Draining | Exited

  datatype State = State(
    time: Time,
    channel: seq<Entry>,
    queue: seq<Entry>,        // the heap, in no particular order
    mode: Mode,
    sleepers: map<nat, Sleeper>,
    sent: seq<Entry>,         // history: every entry the channel accepted
    notified: seq<Entry>      // history: every entry whose waker was notified
  )

  datatype Action =
    | Create(id: nat, deadline: Time)
    | BeginPoll(id: nat)
    | CheckClosed(id: nat)
    | Register(id: nat)
    | Send(id: nat)
    | Receive
    | Tick(now: Time)
    | Pop(i: nat)
    | FinishTick
    | Leave
    | Close
    | DrainQueue(i: nat)
    | DrainChannel
    | Exit

  const Init := State(ZERO, [], [], Waiting, map[], [], [])

  predicate Closed(s: State) {
    s.mode.Draining? || s.mode.Exited?
  }

  /** `peek_mut` shows an entry with the least deadline. */
  predicate IsMin(queue: seq<Entry>, i: nat) {
    i < |queue| && forall j | 0 <= j < |queue| :: Le(queue[i].deadline, queue[j].deadline)
  }

  function Without(q: seq<Entry>, i: nat): seq<Entry>
    requires i < |q|
  {
    q[..i] + q[i + 1..]
  }

  /** A notification reaches whichever waker is registered, and unregisters it. */
  function Notify(sleepers: map<nat, Sleeper>, id: nat): map<nat, Sleeper> {
    if id in sleepers && sleepers[id].registered
    then sleepers[id := sleepers[id].(registered := false, woken := true)]
    else sleepers
  }

  predicate At(s: State, id: nat, pc: Pc) {
    id in s.sleepers && s.sleepers[id].pc == pc && !s.sleepers[id].ready
  }

  predicate Enabled(s: State, a: Action) {
    match a
    case Create(id, _) => id !in s.sleepers
    case BeginPoll(id) => At(s, id, Idle)
    case CheckClosed(id) => At(s, id, AtClosedCheck)
    case Register(id) => At(s, id, AtRegister)
    case Send(id) => At(s, id, AtSend)
    case Receive => s.mode == Waiting && s.channel != []
    case Tick(_) => s.mode == Waiting
    case Pop(i) => s.mode == Ticking && IsMin(s.queue, i) && Le(s.queue[i].deadline, s.time)
    case FinishTick => s.mode == Ticking && forall e | e in s.queue :: !Le(e.deadline, s.time)
    case Leave => s.mode == Waiting
    case Close => s.mode == Leaving
    case DrainQueue(i) => s.mode == Draining && i < |s.queue|
    case DrainChannel => s.mode == Draining && s.queue == [] && s.channel != []
    case Exit => s.mode == Draining && s.queue == [] && s.channel == []
  }

  function SetSleeper(s: State, id: nat, p: Sleeper): State {
    s.(sleepers := s.sleepers[id := p])
  }

  function Apply(s: State, a: Action): State
    requires Enabled(s, a)
  {
    match a
    case Create(id, deadline) => SetSleeper(s, id, Sleeper(deadline, Idle, false, false, false, false))
    case BeginPoll(id) =>
      var p := s.sleepers[id].(woken := false);
      SetSleeper(s, id, if Le(p.deadline, s.time) then p.(ready := true) else p.(pc := AtClosedCheck))
    case CheckClosed(id) =>
      var p := s.sleepers[id];
      SetSleeper(s, id, if Closed(s) then p.(ready := true, pc := Idle) else p.(pc := AtRegister))
    case Register(id) =>
      var p := s.sleepers[id].(registered := true);
      SetSleeper(s, id, if p.hasSink then p.(pc := Idle) else p.(pc := AtSend))
    case Send(id) =>
      var p := s.sleepers[id].(pc := Idle);
      if Closed(s) then SetSleeper(s, id, p.(ready := true, woken := true))
      else
        var e := Entry(id, p.deadline);
        SetSleeper(s, id, p.(hasSink := true)).(channel := s.channel + [e], sent := s.sent + [e])
    case Receive => s.(channel := s.channel[1..], queue := s.queue + [s.channel[0]])
    case Tick(now) => s.(time := now, mode := Ticking)
    case Pop(i) => NotifyAt(s, i)
    case FinishTick => s.(mode := Waiting)
    case Leave => s.(mode := Leaving)
    case Close => s.(mode := Draining)
    case DrainQueue(i) => NotifyAt(s, i)
    case DrainChannel =>
      s.(channel := s.channel[1..], notified := s.notified + [s.channel[0]],
         sleepers := Notify(s.sleepers, s.channel[0].sleeper))
    case Exit => s.(mode := Exited)
  }

  function NotifyAt(s: State, i: nat): State
    requires i < |s.queue|
  {
    s.(queue := Without(s.queue, i), notified := s.notified + [s.queue[i]],
       sleepers := Notify(s.sleepers, s.queue[i].sleeper))
  }

  /** A run: each action is enabled where it is taken. */
  ghost predicate IsRun(s: State, acts: seq<Action>)
    decreases |acts|
  {
    acts == [] || (Enabled(s, acts[0]) && IsRun(Apply(s, acts[0]), acts[1..]))
  }

  function After(s: State, acts: seq<Action>): State
    requires IsRun(s, acts)
    decreases |acts|
  {
    if acts == [] then s else After(Apply(s, acts[0]), acts[1..])
  }

  /** The clock never goes backwards along this run. */
  ghost predicate Monotone(s: State, acts: seq<Action>)
    requires IsRun(s, acts)
    decreases |acts|
  {
    acts != [] ==>
      && (acts[0].Tick? ==> Le(s.time, acts[0].now))
      && Monotone(Apply(s, acts[0]), acts[1..])
  }

  // ---------------------------------------------------------------- Invariants

  /** Every accepted entry is in the channel, in the queue, or was notified, once. */
  ghost predicate Conserved(s: State) {
    && multiset(s.channel) + multiset(s.queue) + multiset(s.notified) == multiset(s.sent)
    && forall i, j | 0 <= i < j < |s.sent| :: s.sent[i].sleeper != s.sent[j].sleeper
  }

  /** A sleeper has a sink exactly when its entry was sent. */
  ghost predicate SinksMatch(s: State) {
    && (forall e | e in s.sent :: e.sleeper in s.sleepers && s.sleepers[e.sleeper].hasSink
                                  && s.sleepers[e.sleeper].deadline == e.deadline)
    && (forall id | id in s.sleepers && s.sleepers[id].hasSink :: Entry(id, s.sleepers[id].deadline) in s.sent)
  }

  /** Until its one notification, a sleeper's waker stays registered. */
  ghost predicate WakersKept(s: State) {
    forall id | id in s.sleepers ::
      && (s.sleepers[id].pc == AtSend ==> !s.sleepers[id].hasSink)
      && (s.sleepers[id].hasSink && Entry(id, s.sleepers[id].deadline) !in s.notified ==> s.sleepers[id].registered)
      && (s.sleepers[id].pc == AtSend ==> s.sleepers[id].registered)
  }

  ghost predicate Inv(s: State) {
    && Conserved(s)
    && SinksMatch(s)
    && WakersKept(s)
    && (s.mode == Exited ==> s.channel == [] && s.queue == [])
  }

  lemma InSent(s: State, e: Entry)
    requires Conserved(s)
    ensures e in s.sent <==> e in s.channel || e in s.queue || e in s.notified
  {
    assert e in s.sent <==> e in multiset(s.sent);
  }

  /** Moving one entry from one place to the end of another loses and duplicates nothing. */
  lemma Moved(from: seq<Entry>, i: nat, to: seq<Entry>)
    requires i < |from|
    ensures multiset(Without(from, i)) + multiset(to + [from[i]]) == multiset(from) + multiset(to)
  {
    Removed(from, i);
  }

  lemma MovedFirst(from: seq<Entry>, to: seq<Entry>)
    requires from != []
    ensures multiset(from[1..]) + multiset(to + [from[0]]) == multiset(from) + multiset(to)
  {
    RemovedFirst(from);
  }

  lemma ConservedReceive(s: State)
    requires Conserved(s) && s.channel != []
    ensures multiset(s.channel[1..]) + multiset(s.queue + [s.channel[0]]) + multiset(s.notified) == multiset(s.sent)
    ensures multiset(s.channel[1..]) + multiset(s.queue) + multiset(s.notified + [s.channel[0]]) == multiset(s.sent)
  {
    MovedFirst(s.channel, s.queue);
    MovedFirst(s.channel, s.notified);
  }

  lemma ConservedNotify(s: State, i: nat)
    requires Conserved(s) && i < |s.queue|
    ensures multiset(s.channel) + multiset(Without(s.queue, i)) + multiset(s.notified + [s.queue[i]]) == multiset(s.sent)
  {
    Moved(s.queue, i, s.notified);
    var c, q, n := multiset(s.channel), multiset(Without(s.queue, i)), multiset(s.notified + [s.queue[i]]);
    assert c + q + n == c + (q + n);
    assert c + (multiset(s.queue) + multiset(s.notified)) == c + multiset(s.queue) + multiset(s.notified);
  }

  lemma ConservedStep(s: State, a: Action)
    requires Conserved(s) && SinksMatch(s) && WakersKept(s) && Enabled(s, a)
    ensures Conserved(Apply(s, a))
  {
    hide Notify, Without;
    match a
    case Send(id) => ConservedSend(s, id);
    case Receive => ConservedReceive(s);
    case DrainChannel => ConservedReceive(s);
    case Pop(i) => ConservedNotify(s, i);
    case DrainQueue(i) => ConservedNotify(s, i);
    case _ =>
  }

  lemma NeverSent(s: State, id: nat)
    requires SinksMatch(s) && WakersKept(s) && At(s, id, AtSend)
    ensures forall i | 0 <= i < |s.sent| :: s.sent[i].sleeper != id
  {
    assert forall i | 0 <= i < |s.sent| :: s.sent[i] in s.sent;
  }

  lemma ConservedSend(s: State, id: nat)
    requires Conserved(s) && SinksMatch(s) && WakersKept(s) && Enabled(s, Send(id))
    ensures Conserved(Apply(s, Send(id)))
  {
    hide SinksMatch, WakersKept;
    if !Closed(s) {
      var s', e := Apply(s, Send(id)), Entry(id, s.sleepers[id].deadline);
      NeverSent(s, id);
      OneMore(multiset(s.channel), multiset(s.queue), multiset(s.notified), e);
      assert multiset(s'.channel) == multiset(s.channel) + multiset{e};
      assert multiset(s'.sent) == multiset(s.sent) + multiset{e};
    }
  }

  lemma OneMore(c: multiset<Entry>, q: multiset<Entry>, n: multiset<Entry>, e: Entry)
    ensures (c + multiset{e}) + q + n == (c + q + n) + multiset{e}
  {
  }

  lemma SinksMatchSend(s: State, id: nat)
    requires SinksMatch(s) && WakersKept(s) && Enabled(s, Send(id)) && !Closed(s)
    ensures SinksMatch(Apply(s, Send(id)))
  {
    var s' := Apply(s, Send(id));
    assert forall e | e in s'.sent :: e in s.sent || e == Entry(id, s.sleepers[id].deadline);
    assert s'.sent[|s.sent|] == Entry(id, s.sleepers[id].deadline);
    assert forall e | e in s.sent :: e in s'.sent;
  }

  lemma SinksMatchStep(s: State, a: Action)
    requires SinksMatch(s) && WakersKept(s) && Enabled(s, a)
    ensures SinksMatch(Apply(s, a))
  {
    hide Without;
    if a.Send? && !Closed(s) {
      SinksMatchSend(s, a.id);
    } else {
      assert Apply(s, a).sent == s.sent;
    }
  }

  lemma WakersKeptStep(s: State, a: Action)
    requires Conserved(s) && SinksMatch(s) && WakersKept(s) && Enabled(s, a)
    ensures WakersKept(Apply(s, a))
  {
    match a
    case Send(id) => InSent(s, Entry(id, s.sleepers[id].deadline));
    case Pop(i) => NotifiedIsSent(s, s.queue[i]);
    case DrainQueue(i) => NotifiedIsSent(s, s.queue[i]);
    case DrainChannel => NotifiedIsSent(s, s.channel[0]);
    case _ =>
  }

  lemma NotifiedIsSent(s: State, e: Entry)
    requires Conserved(s) && SinksMatch(s) && (e in s.queue || e in s.channel)
    ensures e.sleeper in s.sleepers && s.sleepers[e.sleeper].hasSink && s.sleepers[e.sleeper].deadline == e.deadline
  {
    InSent(s, e);
  }

  lemma InvStep(s: State, a: Action)
    requires Inv(s) && Enabled(s, a)
    ensures Inv(Apply(s, a))
  {
    ConservedStep(s, a);
    SinksMatchStep(s, a);
    WakersKeptStep(s, a);
  }

  lemma {:induction false} RunInv(s: State, acts: seq<Action>)
    requires Inv(s) && IsRun(s, acts)
    ensures Inv(After(s, acts))
    decreases |acts|
  {
    if acts != [] {
      InvStep(s, acts[0]);
      RunInv(Apply(s, acts[0]), acts[1..]);
    }
  }

  // ---------------------------------------------------------------- Conservation

  /** How often an entry is found in the channel, in the queue and among the notified. */
  function Places(s: State, e: Entry): nat {
    multiset(s.channel)[e] + multiset(s.queue)[e] + multiset(s.notified)[e]
  }

  lemma OnePlace(s: State, e: Entry)
    requires Conserved(s)
    ensures Places(s, e) == if e in s.sent then 1 else 0
  {
    assert NoRepeats(s.sent);
    CountsOnce(s.sent);
    assert Places(s, e) == (multiset(s.channel) + multiset(s.queue) + multiset(s.notified))[e];
  }

  /** Whatever the run, every entry the channel accepted is in exactly one of channel, queue and
      notified, once; so it is notified at most once, and after the clock task exits exactly once. */
  lemma TimerConservation(acts: seq<Action>, e: Entry)
    requires IsRun(Init, acts)
    ensures var s := After(Init, acts);
            && (e in s.sent <==> Places(s, e) == 1)
            && (e !in s.sent <==> Places(s, e) == 0)
            && (s.mode == Exited && e in s.sent ==> multiset(s.notified)[e] == 1)
  {
    RunInv(Init, acts);
    OnePlace(After(Init, acts), e);
  }

  // ---------------------------------------------------------------- Wake-ups

  /** `poll` returned Pending and has not been called again. */
  predicate Pending(s: State, id: nat) {
    At(s, id, Idle) && s.sleepers[id].hasSink
  }

  predicate Notified(s: State, id: nat) {
    id in s.sleepers && Entry(id, s.sleepers[id].deadline) in s.notified
  }

  /** A notified sleeper that is not done will be polled again, or is about to see that it is due. */
  ghost predicate WakeUpsKept(s: State) {
    && (forall e | e in s.notified :: Le(e.deadline, s.time) || Closed(s))
    && forall id | Notified(s, id) && !s.sleepers[id].ready ::
        && (s.sleepers[id].pc == Idle ==> s.sleepers[id].woken)
        && (s.sleepers[id].pc == AtClosedCheck ==> s.sleepers[id].woken || Closed(s))
        && (s.sleepers[id].pc == AtRegister ==> s.sleepers[id].woken)
  }

  /** The entry about to be notified has not been, and its sleeper's waker is registered. */
  lemma FirstNotification(s: State, e: Entry)
    requires Inv(s) && (e in s.queue || e in s.channel)
    ensures e !in s.notified
    ensures e.sleeper in s.sleepers && s.sleepers[e.sleeper].registered && s.sleepers[e.sleeper].deadline == e.deadline
  {
    InSent(s, e);
    OnePlace(s, e);
    assert multiset(s.channel)[e] >= 1 || multiset(s.queue)[e] >= 1;
    assert e in s.notified ==> multiset(s.notified)[e] >= 1;
    assert e == Entry(e.sleeper, s.sleepers[e.sleeper].deadline);
  }

  lemma WakeUpsKeptNotify(s: State, s': State, e: Entry)
    requires Inv(s) && WakeUpsKept(s) && (e in s.queue || e in s.channel)
    requires Le(e.deadline, s.time) || Closed(s)
    requires s'.time == s.time && s'.mode == s.mode
    requires s'.notified == s.notified + [e] && s'.sleepers == Notify(s.sleepers, e.sleeper)
    ensures WakeUpsKept(s')
  {
    FirstNotification(s, e);
    forall id | Notified(s', id) && id != e.sleeper ensures Notified(s, id) {
    }
  }

  lemma WakeUpsKeptStep(s: State, a: Action)
    requires Inv(s) && WakeUpsKept(s) && Enabled(s, a)
    requires a.Tick? ==> Le(s.time, a.now)
    ensures WakeUpsKept(Apply(s, a))
  {
    match a
    case Pop(i) => WakeUpsKeptNotify(s, Apply(s, a), s.queue[i]);
    case DrainQueue(i) => WakeUpsKeptNotify(s, Apply(s, a), s.queue[i]);
    case DrainChannel => WakeUpsKeptNotify(s, Apply(s, a), s.channel[0]);
    case Send(id) => WakeUpsKeptSend(s, id);
    case Create(id, deadline) => WakeUpsKeptCreate(s, id, deadline);
    case _ =>
  }

  lemma WakeUpsKeptSend(s: State, id: nat)
    requires Inv(s) && WakeUpsKept(s) && Enabled(s, Send(id))
    ensures WakeUpsKept(Apply(s, Send(id)))
  {
    InSent(s, Entry(id, s.sleepers[id].deadline));
  }

  lemma WakeUpsKeptCreate(s: State, id: nat, deadline: Time)
    requires Inv(s) && WakeUpsKept(s) && Enabled(s, Create(id, deadline))
    ensures WakeUpsKept(Apply(s, Create(id, deadline)))
  {
    InSent(s, Entry(id, deadline));
  }

  lemma {:induction false} RunWakeUps(s: State, acts: seq<Action>)
    requires Inv(s) && WakeUpsKept(s) && IsRun(s, acts) && Monotone(s, acts)
    ensures Inv(After(s, acts)) && WakeUpsKept(After(s, acts))
    decreases |acts|
  {
    if acts != [] {
      InvStep(s, acts[0]);
      WakeUpsKeptStep(s, acts[0]);
      RunWakeUps(Apply(s, acts[0]), acts[1..]);
    }
  }

  /** No lost wake-up: along any run whose ticks do not go backwards, a sleeper that returned Pending
      has its entry in the channel or the queue, or it will be polled again with its deadline reached
      (or the clock gone). */
  lemma NoLostWakeUp(acts: seq<Action>, id: nat)
    requires IsRun(Init, acts) && Monotone(Init, acts)
    requires Pending(After(Init, acts), id)
    ensures var s := After(Init, acts);
            var e := Entry(id, s.sleepers[id].deadline);
            || e in s.channel || e in s.queue
            || (s.sleepers[id].woken && (Le(e.deadline, s.time) || Closed(s)))
  {
    RunWakeUps(Init, acts);
    var s := After(Init, acts);
    InSent(s, Entry(id, s.sleepers[id].deadline));
  }

  /** An entry that is queued when a tick reaches its deadline is notified by the time that tick is
      done, however the sleepers' polls are interleaved, and even if it was sent late. */
  lemma DueAfterTick(s: State, now: Time, acts: seq<Action>, e: Entry)
    requires Inv(s) && s.mode == Waiting && e in s.queue && Le(e.deadline, now)
    requires IsRun(Apply(s, Tick(now)), acts)
    requires FinishTick in acts && acts[|acts| - 1] == FinishTick && FinishTick !in acts[..|acts| - 1]
    ensures e in After(Apply(s, Tick(now)), acts).notified
  {
    InvStep(s, Tick(now));
    TickingKeeps(Apply(s, Tick(now)), acts, e);
  }

  lemma {:induction false} TickingKeeps(s: State, acts: seq<Action>, e: Entry)
    requires s.mode == Ticking && (e in s.queue || e in s.notified) && Le(e.deadline, s.time)
    requires IsRun(s, acts) && acts != []
    requires acts[|acts| - 1] == FinishTick && FinishTick !in acts[..|acts| - 1]
    ensures e in After(s, acts).notified
    decreases |acts|
  {
    var a := acts[0];
    if |acts| > 1 {
      assert a in acts[..|acts| - 1];
      TickingStep(s, a, e);
      assert acts[1..][..|acts[1..]| - 1] == acts[..|acts| - 1][1..];
      TickingKeeps(Apply(s, a), acts[1..], e);
    } else {
      assert After(s, acts) == Apply(s, FinishTick);
    }
  }

  lemma TickingStep(s: State, a: Action, e: Entry)
    requires s.mode == Ticking && (e in s.queue || e in s.notified) && Enabled(s, a) && a != FinishTick
    ensures var s' := Apply(s, a);
            s'.mode == Ticking && s'.time == s.time && (e in s'.queue || e in s'.notified)
  {
    if a.Pop? && e in s.queue && e != s.queue[a.i] {
      var j :| 0 <= j < |s.queue| && s.queue[j] == e;
      var q := Without(s.queue, a.i);
      assert if j < a.i then q[j] == e else q[j - 1] == e;
    }
  }

  // ---------------------------------------------------------------- Between ticks

  /** The entry was received in the run, and no tick was finished after that. */
  ghost predicate ReceivedSinceTick(s: State, acts: seq<Action>, e: Entry)
    requires IsRun(s, acts)
    decreases |acts|
  {
    acts != [] &&
    ((acts[0] == Receive && s.channel[0] == e && FinishTick !in acts[1..])
     || ReceivedSinceTick(Apply(s, acts[0]), acts[1..], e))
  }

  predicate Overdue(s: State, e: Entry) {
    (s.mode == Waiting || s.mode == Leaving) && e in s.queue && Le(e.deadline, s.time)
  }

  lemma OverdueStep(s: State, a: Action, e: Entry)
    requires Enabled(s, a) && Overdue(Apply(s, a), e)
    ensures a != FinishTick && (Overdue(s, e) || (a == Receive && s.channel[0] == e))
  {
    hide Notify, IsMin;
  }

  lemma {:induction false} OverdueFrom(s: State, acts: seq<Action>, e: Entry)
    requires IsRun(s, acts) && Overdue(After(s, acts), e)
    ensures ReceivedSinceTick(s, acts, e) || (FinishTick !in acts && Overdue(s, e))
    decreases |acts|
  {
    hide Apply, Enabled, Overdue;
    if acts != [] {
      var s1 := Apply(s, acts[0]);
      OverdueFrom(s1, acts[1..], e);
      if !ReceivedSinceTick(s1, acts[1..], e) {
        OverdueStep(s, acts[0], e);
      }
    }
  }

  /** Nothing due is left behind: in every run, whatever the ticks, an entry that is queued past its deadline
      between ticks reached the clock task after the last tick was finished. */
  lemma OnlyLateOverdue(acts: seq<Action>, e: Entry)
    requires IsRun(Init, acts) && Overdue(After(Init, acts), e)
    ensures ReceivedSinceTick(Init, acts, e)
  {
    OverdueFrom(Init, acts, e);
  }

  predicate Unpolled(s: State, id: nat) {
    id in s.sleepers ==> At(s, id, Idle) && !s.sleepers[id].hasSink
  }

  lemma UnpolledStep(s: State, a: Action, id: nat)
    requires Enabled(s, a) && Unpolled(Apply(s, a), id)
    ensures a != BeginPoll(id) && Unpolled(s, id)
  {
    hide IsMin, Without;
  }

  /** An idle sleeper that is not done and has no entry was never polled. */
  lemma {:induction false} UnpolledFrom(s: State, acts: seq<Action>, id: nat)
    requires IsRun(s, acts) && Unpolled(After(s, acts), id)
    ensures Unpolled(s, id) && BeginPoll(id) !in acts
    decreases |acts|
  {
    hide Apply, Enabled, Unpolled;
    if acts != [] {
      UnpolledFrom(Apply(s, acts[0]), acts[1..], id);
      UnpolledStep(s, acts[0], id);
    }
  }

  /** So whoever was polled and is neither done nor in a poll is Pending: its entry was accepted, however its
      polls were interleaved, with the closing of the channel too. */
  lemma PolledIsPending(acts: seq<Action>, id: nat)
    requires IsRun(Init, acts) && BeginPoll(id) in acts && At(After(Init, acts), id, Idle)
    ensures Pending(After(Init, acts), id) && Entry(id, After(Init, acts).sleepers[id].deadline) in After(Init, acts).sent
  {
    hide IsRun, After;
    RunInv(Init, acts);
    if !After(Init, acts).sleepers[id].hasSink {
      UnpolledFrom(Init, acts, id);
    }
  }

  /** No wake-up out of the blue: a sleeper is owed a poll only if its entry was notified, or it is done. */
  ghost predicate WokenForCause(s: State) {
    forall id | id in s.sleepers && s.sleepers[id].woken :: Notified(s, id) || s.sleepers[id].ready
  }

  lemma WokenForCauseStep(s: State, a: Action)
    requires Inv(s) && WokenForCause(s) && Enabled(s, a)
    ensures WokenForCause(Apply(s, a))
  {
    hide Without, Conserved, WakersKept;
    match a
    case Pop(i) => FirstNotification(s, s.queue[i]);
    case DrainQueue(i) => FirstNotification(s, s.queue[i]);
    case DrainChannel => FirstNotification(s, s.channel[0]);
    case _ =>
  }

  lemma {:induction false} WokenForCauseFrom(s: State, acts: seq<Action>)
    requires Inv(s) && WokenForCause(s) && IsRun(s, acts)
    ensures WokenForCause(After(s, acts))
    decreases |acts|
  {
    hide Inv, Apply, Enabled, WokenForCause;
    if acts != [] {
      InvStep(s, acts[0]);
      WokenForCauseStep(s, acts[0]);
      WokenForCauseFrom(Apply(s, acts[0]), acts[1..]);
    }
  }

  lemma NoSpuriousWakeUp(acts: seq<Action>, id: nat)
    requires IsRun(Init, acts) && id in After(Init, acts).sleepers && After(Init, acts).sleepers[id].woken
    ensures var s := After(Init, acts); Notified(s, id) || s.sleepers[id].ready
  {
    WokenForCauseFrom(Init, acts);
  }

  // ---------------------------------------------------------------- Polling

  /** One call of `poll` with nothing in between. */
  function Poll(s: State, id: nat): State
    requires At(s, id, Idle)
  {
    var s1 := Apply(s, BeginPoll(id));
    if !At(s1, id, AtClosedCheck) then s1
    else
      var s2 := Apply(s1, CheckClosed(id));
      if !At(s2, id, AtRegister) then s2
      else
        var s3 := Apply(s2, Register(id));
        if !At(s3, id, AtSend) then s3 else Apply(s3, Send(id))
  }

  /** The outcome of a poll: done if due, otherwise registered, with an entry sent the first time only. */
  lemma PollOutcome(s: State, id: nat)
    requires At(s, id, Idle)
    ensures var p := s.sleepers[id];
            var e := Entry(id, p.deadline);
            var due := Le(p.deadline, s.time) || Closed(s);
            Poll(s, id) ==
              if due then SetSleeper(s, id, p.(woken := false, ready := true))
              else if p.hasSink then SetSleeper(s, id, p.(woken := false, registered := true))
              else SetSleeper(s, id, p.(woken := false, registered := true, hasSink := true))
                     .(channel := s.channel + [e], sent := s.sent + [e])
  {
  }

  /** After the clock task has gone, every accepted entry was notified and every poll is Ready. */
  lemma NothingLeftAfterExit(acts: seq<Action>)
    requires IsRun(Init, acts) && After(Init, acts).mode == Exited
    ensures var s := After(Init, acts);
            && multiset(s.notified) == multiset(s.sent)
            && forall id | At(s, id, Idle) :: id in Poll(s, id).sleepers && Poll(s, id).sleepers[id].ready
  {
    RunInv(Init, acts);
    var s := After(Init, acts);
    assert multiset(s.channel) + multiset(s.queue) + multiset(s.notified) == multiset(s.notified);
    forall id | At(s, id, Idle) ensures id in Poll(s, id).sleepers && Poll(s, id).sleepers[id].ready {
      PollOutcome(s, id);
    }
  }

  // ---------------------------------------------------------------- Polling a notified sleeper again

  /** The poll in progress looks at the channel's closed flag when it is set. */
  ghost predicate ClosedAtCheck(s: State, acts: seq<Action>, id: nat)
    requires IsRun(s, acts)
    decreases |acts|
  {
    acts != [] && ((acts[0] == CheckClosed(id) && Closed(s)) || ClosedAtCheck(Apply(s, acts[0]), acts[1..], id))
  }

  /** Notified and not done, with no poll owed to it. */
  predicate Stranded(s: State, id: nat) {
    Notified(s, id) && s.sleepers[id].hasSink && !s.sleepers[id].woken && !s.sleepers[id].ready && !s.sleepers[id].pc.AtSend?
  }

  predicate Done(s: State, id: nat) {
    id in s.sleepers && s.sleepers[id].ready
  }

  /** The one entry it ever sent is neither in the channel nor in the queue. */
  lemma NoEntryLeft(s: State, id: nat, e: Entry)
    requires Inv(s) && Notified(s, id) && s.sleepers[id].hasSink && (e in s.channel || e in s.queue)
    ensures e.sleeper != id
  {
    FirstNotification(s, e);
  }

  lemma StrandedNotify(s: State, s': State, e: Entry, id: nat)
    requires Inv(s) && Stranded(s, id) && (e in s.channel || e in s.queue)
    requires s'.notified == s.notified + [e] && s'.sleepers == Notify(s.sleepers, e.sleeper)
    ensures Stranded(s', id)
  {
    hide Inv;
    NoEntryLeft(s, id, e);
  }

  lemma StrandedStep(s: State, a: Action, id: nat)
    requires Inv(s) && Stranded(s, id) && Enabled(s, a) && a != BeginPoll(id)
    ensures if a == CheckClosed(id) && Closed(s) then Done(Apply(s, a), id) else Stranded(Apply(s, a), id)
  {
    hide Inv, Notify, Without;
    match a
    case Pop(i) => StrandedNotify(s, Apply(s, a), s.queue[i], id);
    case DrainQueue(i) => StrandedNotify(s, Apply(s, a), s.queue[i], id);
    case DrainChannel => StrandedNotify(s, Apply(s, a), s.channel[0], id);
    case _ =>
  }

  lemma DoneStep(s: State, a: Action, id: nat)
    requires Done(s, id) && Enabled(s, a)
    ensures Done(Apply(s, a), id)
  {
  }

  lemma {:induction false} DoneFrom(s: State, acts: seq<Action>, id: nat)
    requires Done(s, id) && IsRun(s, acts)
    ensures Done(After(s, acts), id)
    decreases |acts|
  {
    hide Apply, Enabled, Done;
    if acts != [] {
      DoneStep(s, acts[0], id);
      DoneFrom(Apply(s, acts[0]), acts[1..], id);
    }
  }

  lemma {:induction false} StrandedFrom(s: State, acts: seq<Action>, id: nat)
    requires Inv(s) && Stranded(s, id) && IsRun(s, acts) && BeginPoll(id) !in acts
    ensures Inv(After(s, acts))
    ensures if ClosedAtCheck(s, acts, id) then Done(After(s, acts), id) else Stranded(After(s, acts), id)
    decreases |acts|
  {
    hide Inv, Apply, Enabled, Stranded, Done;
    if acts != [] {
      InvStep(s, acts[0]);
      StrandedStep(s, acts[0], id);
      if acts[0] == CheckClosed(id) && Closed(s) {
        RunInv(Apply(s, acts[0]), acts[1..]);
        DoneFrom(Apply(s, acts[0]), acts[1..], id);
      } else {
        StrandedFrom(Apply(s, acts[0]), acts[1..], id);
      }
    }
  }

  /** What polling a notified sleeper again comes to, however the poll's steps are interleaved with ticks,
      other polls and the shutdown, and over whatever follows until it is polled once more: it is done
      exactly if its deadline was reached when the poll began or the channel was closed when the poll
      looked. Otherwise it is never woken again, the shutdown's notifications included, and no entry of
      its is left anywhere. */
  lemma RepollExact(acts: seq<Action>, id: nat, more: seq<Action>)
    requires IsRun(Init, acts)
    requires Pending(After(Init, acts), id) && Notified(After(Init, acts), id)
    requires IsRun(Apply(After(Init, acts), BeginPoll(id)), more) && BeginPoll(id) !in more
    ensures var s := After(Init, acts);
            var polled := Apply(s, BeginPoll(id));
            var s' := After(polled, more);
            && id in s'.sleepers
            && (s'.sleepers[id].ready <==> Le(s.sleepers[id].deadline, s.time) || ClosedAtCheck(polled, more, id))
            && (!s'.sleepers[id].ready ==>
                  && Notified(s', id) && !s'.sleepers[id].woken
                  && forall e | e in s'.channel || e in s'.queue :: e.sleeper != id)
  {
    hide IsRun, After, Inv, ClosedAtCheck;
    RunInv(Init, acts);
    var s := After(Init, acts);
    var polled := Apply(s, BeginPoll(id));
    InvStep(s, BeginPoll(id));
    if Le(s.sleepers[id].deadline, s.time) {
      DoneFrom(polled, more, id);
    } else {
      hide Apply, Enabled;
      StrandedFrom(polled, more, id);
      forall e | !Done(After(polled, more), id) && (e in After(polled, more).channel || e in After(polled, more).queue)
        ensures e.sleeper != id
      {
        NoEntryLeft(After(polled, more), id, e);
      }
    }
  }

  /** A sleeper that was notified and is Pending without a poll owed to it stays so for the rest of every
      run in which nobody polls it, the clock's shutdown included. */
  lemma NeverWokenAgain(acts: seq<Action>, id: nat, more: seq<Action>)
    requires IsRun(Init, acts) && IsRun(After(Init, acts), more) && BeginPoll(id) !in more
    requires Pending(After(Init, acts), id) && Notified(After(Init, acts), id) && !After(Init, acts).sleepers[id].woken
    ensures var s' := After(After(Init, acts), more);
            Pending(s', id) && Notified(s', id) && !s'.sleepers[id].woken
  {
    hide Inv;
    RunInv(Init, acts);
    IdleFrom(After(Init, acts), more, id);
  }

  lemma {:induction false} IdleFrom(s: State, acts: seq<Action>, id: nat)
    requires Inv(s) && Stranded(s, id) && At(s, id, Idle) && IsRun(s, acts) && BeginPoll(id) !in acts
    ensures Stranded(After(s, acts), id) && At(After(s, acts), id, Idle)
    decreases |acts|
  {
    hide Inv, Stranded;
    if acts != [] {
      InvStep(s, acts[0]);
      StrandedStep(s, acts[0], id);
      IdleFrom(Apply(s, acts[0]), acts[1..], id);
    }
  }

  lemma {:induction false} Extend(s: State, acts: seq<Action>, a: Action)
    requires IsRun(s, acts) && Enabled(After(s, acts), a)
    ensures IsRun(s, acts + [a]) && After(s, acts + [a]) == Apply(After(s, acts), a)
    decreases |acts|
  {
    if acts == [] {
      assert [a][1..] == [];
    } else {
      Extend(Apply(s, acts[0]), acts[1..], a);
      assert (acts + [a])[1..] == acts[1..] + [a];
    }
  }

  /** A first sleeper whose first poll found the clock short of its deadline. */
  lemma SleeperSent(deadline: Time) returns (acts: seq<Action>)
    requires !Le(deadline, ZERO)
    ensures IsRun(Init, acts)
    ensures After(Init, acts) == Init.(channel := [Entry(0, deadline)], sent := [Entry(0, deadline)],
              sleepers := map[0 := Sleeper(deadline, Idle, true, true, false, false)])
  {
    var create, begin, check, register, send := Create(0, deadline), BeginPoll(0), CheckClosed(0), Register(0), Send(0);
    Extend(Init, [], create);
    assert [] + [create] == [create];
    Extend(Init, [create], begin);
    Extend(Init, [create] + [begin], check);
    Extend(Init, [create] + [begin] + [check], register);
    Extend(Init, [create] + [begin] + [check] + [register], send);
    acts := [create] + [begin] + [check] + [register] + [send];
  }

  /** The same sleeper after a tick that reached its deadline. */
  lemma SleeperNotified(deadline: Time) returns (acts: seq<Action>)
    requires !Le(deadline, ZERO)
    ensures IsRun(Init, acts)
    ensures After(Init, acts) == Init.(time := deadline, sent := [Entry(0, deadline)], notified := [Entry(0, deadline)],
              sleepers := map[0 := Sleeper(deadline, Idle, true, false, true, false)])
  {
    var e := Entry(0, deadline);
    var sent := SleeperSent(deadline);
    Extend(Init, sent, Receive);
    var s1 := After(Init, sent + [Receive]);
    assert s1.queue == [e] && s1.channel == [];
    Extend(Init, sent + [Receive], Tick(deadline));
    var ticking := sent + [Receive] + [Tick(deadline)];
    Extend(Init, ticking, Pop(0));
    assert Without([e], 0) == [] && [] + [e] == [e];
    acts := ticking + [Pop(0)];
    assert After(Init, acts).queue == [];
    Extend(Init, acts, FinishTick);
    acts := acts + [FinishTick];
  }

  /** A clock that jumps back between a notification and the next poll loses the wake-up: a run after
      which a sleeper is Pending and notified, and polling it leaves it Pending, not woken, with no
      entry anywhere. */
  lemma BackwardsClockLosesWakeUp()
    ensures exists acts :: IsRun(Init, acts) &&
              var s := After(Init, acts);
              && Pending(s, 0) && Notified(s, 0) && s.channel == [] && s.queue == [] && s.mode == Waiting
              && Poll(s, 0).channel == [] && Pending(Poll(s, 0), 0) && !Poll(s, 0).sleepers[0].woken
  {
    hide IsRun, After, Poll;
    var five, three := Time(5, 0), Time(3, 0);
    var acts := SleeperNotified(five);
    Extend(Init, acts, Tick(three));
    Extend(Init, acts + [Tick(three)], FinishTick);
    var back := acts + [Tick(three)] + [FinishTick];
    var s := After(Init, back);
    assert s.sleepers[0] == Sleeper(five, Idle, true, false, true, false) && s.time == three;
    PollOutcome(s, 0);
  }
}
