/** The clock task and the sleep future as code: the tick loop over the heap, the shutdown drain, and
    `poll`, each run without interruption. `Clock` interleaves their steps. */
module ClockTask {
  import opened ClockTime
  import opened Clock

  lemma {:induction false} SomeMin(queue: seq<Entry>)
    requires queue != []
    ensures exists i: nat :: IsMin(queue, i)
  {
    if |queue| == 1 {
      assert IsMin(queue, 0);
    } else {
      var rest := queue[..|queue| - 1];
      SomeMin(rest);
      var i: nat :| IsMin(rest, i);
      var last := |queue| - 1;
      assert forall j | 0 <= j < last :: queue[j] == rest[j];
      if Le(queue[i].deadline, queue[last].deadline) {
        assert IsMin(queue, i);
      } else {
        assert IsMin(queue, last);
      }
    }
  }

  ghost predicate InOrder(woken: seq<Entry>) {
    forall i, j | 0 <= i < j < |woken| :: Le(woken[i].deadline, woken[j].deadline)
  }

  /** `woken` and `kept` split `before` at `now`: the due entries, earliest first, and all others. */
  ghost predicate SplitAt(before: seq<Entry>, now: Time, woken: seq<Entry>, kept: seq<Entry>) {
    && InOrder(woken)
    && forall e ::
        && multiset(woken)[e] == (if Le(e.deadline, now) then multiset(before)[e] else 0)
        && multiset(kept)[e] == (if Le(e.deadline, now) then 0 else multiset(before)[e])
  }

  /** Midway through a tick: some due entries are out, in order, and none left is earlier. */
  ghost predicate Popping(before: seq<Entry>, now: Time, woken: seq<Entry>, queue: seq<Entry>) {
    && multiset(queue) + multiset(woken) == multiset(before)
    && InOrder(woken)
    && (forall e | e in woken :: Le(e.deadline, now))
    && forall e, f | e in woken && f in queue :: Le(e.deadline, f.deadline)
  }

  lemma PopKeeps(before: seq<Entry>, now: Time, woken: seq<Entry>, queue: seq<Entry>, i: nat)
    requires Popping(before, now, woken, queue) && IsMin(queue, i) && Le(queue[i].deadline, now)
    ensures Popping(before, now, woken + [queue[i]], Without(queue, i))
  {
    Moved(queue, i, woken);
    assert queue[i] in queue;
    forall f | f in Without(queue, i) ensures f in queue && Le(queue[i].deadline, f.deadline) {
      assert f in queue[..i] || f in queue[i + 1..];
    }
  }

  lemma PoppingStart(before: seq<Entry>, now: Time)
    ensures Popping(before, now, [], before)
  {
  }

  lemma MinNotDue(queue: seq<Entry>, i: nat, now: Time)
    requires IsMin(queue, i) && !Le(queue[i].deadline, now)
    ensures forall e | e in queue :: !Le(e.deadline, now)
  {
  }

  /** The unbounded channel from sleepers to the clock task. */
  class TimerChannel {
    var entries: seq<Entry>
    var closed: bool

    constructor ()
      ensures entries == [] && !closed
    {
      entries, closed := [], false;
    }

    method Send(e: Entry) returns (ok: bool)
      modifies this
      ensures ok == !old(closed) && closed == old(closed)
      ensures entries == if ok then old(entries) + [e] else old(entries)
    {
      ok := !closed;
      if ok {
        entries := entries + [e];
      }
    }

    method TryReceive() returns (e: seq<Entry>)
      modifies this
      ensures closed == old(closed)
      ensures if old(entries) == [] then e == [] && entries == []
              else e == [old(entries)[0]] && entries == old(entries)[1..]
    {
      if entries == [] {
        return [];
      }
      e := [entries[0]];
      entries := entries[1..];
    }
  }

  class Task {
    const time: EncodedTime
    const channel: TimerChannel
    var timers: seq<Entry>
    var notified: seq<Entry>

    constructor (time: EncodedTime, channel: TimerChannel)
      ensures this.time == time && this.channel == channel && timers == [] && notified == []
    {
      this.time, this.channel, timers, notified := time, channel, [], [];
    }

    /** `on_tick`: store the time, then pop and notify while the earliest entry is due. */
    method OnTick(now: Time)
      modifies this, time
      ensures time.Get() == now
      ensures |notified| >= |old(notified)| && notified[..|old(notified)|] == old(notified)
      ensures SplitAt(old(timers), now, notified[|old(notified)|..], timers)
    {
      hide Popping, InOrder, SplitAt;
      ghost var before, done := timers, notified;
      PoppingStart(before, now);
      time.Set(now);
      ghost var woken: seq<Entry> := [];
      var go := true;
      while go
        invariant notified == done + woken
        invariant Popping(before, now, woken, timers)
        invariant !go ==> forall e | e in timers :: !Le(e.deadline, now)
        invariant time.Get() == now
        decreases go, |timers|
      {
        if timers == [] {
          go := false;
        } else {
          SomeMin(timers);
          var i: nat :| IsMin(timers, i);
          var e := timers[i];
          if Le(e.deadline, now) {
            PopKeeps(before, now, woken, timers, i);
            notified := notified + [e];
            woken := woken + [e];
            timers := Without(timers, i);
          } else {
            MinNotDue(timers, i, now);
            go := false;
          }
        }
      }
      SplitFrom(before, now, woken, timers);
      assert notified[|done|..] == woken;
    }

    /** The end of the clock task: close the channel, notify what is queued and what is still in it. */
    method Shutdown()
      modifies this, channel
      ensures channel.closed && channel.entries == [] && timers == []
      ensures multiset(notified) == multiset(old(notified)) + multiset(old(timers)) + multiset(old(channel.entries))
    {
      channel.closed := true;
      while timers != []
        invariant channel.closed && channel.entries == old(channel.entries)
        invariant multiset(timers) + multiset(notified) == multiset(old(timers)) + multiset(old(notified))
      {
        MovedFirst(timers, notified);
        notified := notified + [timers[0]];
        timers := timers[1..];
      }
      while channel.entries != []
        invariant channel.closed && timers == []
        invariant multiset(channel.entries) + multiset(notified)
                  == multiset(old(channel.entries)) + (multiset(old(timers)) + multiset(old(notified)))
        decreases |channel.entries|
      {
        MovedFirst(channel.entries, notified);
        var e := channel.TryReceive();
        notified := notified + e;
      }
      assert multiset(channel.entries) + multiset(notified) == multiset(notified);
    }
  }

  lemma SplitFrom(before: seq<Entry>, now: Time, woken: seq<Entry>, kept: seq<Entry>)
    requires Popping(before, now, woken, kept)
    requires forall e | e in kept :: !Le(e.deadline, now)
    ensures SplitAt(before, now, woken, kept)
  {
    forall e
      ensures multiset(woken)[e] == (if Le(e.deadline, now) then multiset(before)[e] else 0)
      ensures multiset(kept)[e] == (if Le(e.deadline, now) then 0 else multiset(before)[e])
    {
      assert multiset(before)[e] == multiset(woken)[e] + multiset(kept)[e];
      assert e in multiset(woken) ==> e in woken;
      assert e in multiset(kept) ==> e in kept;
    }
  }

  /** A split is determined by what was queued and the time, up to the order of equal deadlines. */
  lemma SplitUnique(before: seq<Entry>, now: Time, w: seq<Entry>, k: seq<Entry>, w': seq<Entry>, k': seq<Entry>)
    requires SplitAt(before, now, w, k) && SplitAt(before, now, w', k')
    ensures multiset(w) == multiset(w') && multiset(k) == multiset(k')
  {
  }

  /** The same split, whatever polls happen while the tick is being handled: between `Tick` and
      `FinishTick` exactly the due entries are notified, earliest first, and all others stay. */
  lemma TickPartition(s: State, now: Time, acts: seq<Action>)
    requires s.mode == Waiting && IsRun(Apply(s, Tick(now)), acts) && acts != []
    requires acts[|acts| - 1] == FinishTick && FinishTick !in acts[..|acts| - 1]
    ensures var s' := After(Apply(s, Tick(now)), acts);
            && |s'.notified| >= |s.notified| && s'.notified[..|s.notified|] == s.notified
            && SplitAt(s.queue, now, s'.notified[|s.notified|..], s'.queue)
            && s'.time == now
  {
    hide Popping, SplitAt;
    PoppingStart(s.queue, now);
    assert s.notified + [] == s.notified;
    TickSplits(s.queue, s.notified, [], Apply(s, Tick(now)), acts);
    var s' := After(Apply(s, Tick(now)), acts);
    var woken :| s'.notified == s.notified + woken && SplitAt(s.queue, now, woken, s'.queue);
    assert s'.notified[|s.notified|..] == woken;
  }

  lemma {:induction false} TickSplits(before: seq<Entry>, done: seq<Entry>, woken: seq<Entry>, s: State, acts: seq<Action>)
    requires s.mode == Ticking && s.notified == done + woken && Popping(before, s.time, woken, s.queue)
    requires IsRun(s, acts) && acts != []
    requires acts[|acts| - 1] == FinishTick && FinishTick !in acts[..|acts| - 1]
    ensures var s' := After(s, acts);
            s'.time == s.time && exists w :: s'.notified == done + w && SplitAt(before, s.time, w, s'.queue)
    decreases |acts|
  {
    hide Popping, SplitAt;
    var a := acts[0];
    var s1 := Apply(s, a);
    if |acts| == 1 {
      SplitFrom(before, s.time, woken, s.queue);
      assert After(s, acts) == s1;
    } else {
      assert a in acts[..|acts| - 1];
      assert acts[1..][..|acts[1..]| - 1] == acts[..|acts| - 1][1..];
      var woken' := if a.Pop? then woken + [s.queue[a.i]] else woken;
      if a.Pop? {
        PopKeeps(before, s.time, woken, s.queue, a.i);
        assert s1.notified == done + woken';
      }
      TickSplits(before, done, woken', s1, acts[1..]);
    }
  }

  /** The same run exists: a tick can always be handled to its end. */
  lemma TickIsRun(s: State, now: Time) returns (acts: seq<Action>)
    requires s.mode == Waiting
    ensures acts != [] && acts[|acts| - 1] == FinishTick && FinishTick !in acts[..|acts| - 1]
    ensures IsRun(Apply(s, Tick(now)), acts) && After(Apply(s, Tick(now)), acts).mode == Waiting
  {
    var s1 := Apply(s, Tick(now));
    assert IsRun(s1, []) && After(s1, []) == s1;
    acts := PopsDue(s1, []);
    hide IsRun, After;
    Extend(s1, acts, FinishTick);
    assert (acts + [FinishTick])[..|acts|] == acts;
    acts := acts + [FinishTick];
  }

  lemma {:induction false} PopsDue(s: State, acts: seq<Action>) returns (more: seq<Action>)
    requires IsRun(s, acts) && After(s, acts).mode == Ticking && FinishTick !in acts
    ensures IsRun(s, more) && FinishTick !in more
    ensures After(s, more).mode == Ticking && Enabled(After(s, more), FinishTick)
    decreases |After(s, acts).queue|
  {
    hide IsRun, After, IsMin;
    var now := After(s, acts);
    more := acts;
    if now.queue != [] {
      SomeMin(now.queue);
      var i: nat :| IsMin(now.queue, i);
      assert i < |now.queue| by { MinInside(now.queue, i); }
      if Le(now.queue[i].deadline, now.time) {
        Extend(s, acts, Pop(i));
        more := PopsDue(s, acts + [Pop(i)]);
      } else {
        MinNotDue(now.queue, i, now.time);
      }
    }
  }

  lemma MinInside(queue: seq<Entry>, i: nat)
    requires IsMin(queue, i)
    ensures i < |queue|
  {
  }

  /** Once the clock task has left its loop, no tick is handled any more: over every run the time stays and the
      loop is not entered again. */
  lemma {:induction false} LeftForGood(s: State, acts: seq<Action>)
    requires s.mode != Waiting && s.mode != Ticking && IsRun(s, acts)
    ensures var s' := After(s, acts); s'.mode != Waiting && s'.mode != Ticking && s'.time == s.time
    decreases |acts|
  {
    if acts != [] {
      LeftForGood(Apply(s, acts[0]), acts[1..]);
    }
  }

  /** The end of the clock task as a run: what is queued and what is in the channel are notified, each once. */
  lemma ShutdownIsRun(s: State) returns (acts: seq<Action>)
    requires s.mode == Waiting
    ensures IsRun(s, acts)
    ensures var s' := After(s, acts);
            && s' == s.(mode := Exited, queue := [], channel := [], notified := s'.notified, sleepers := s'.sleepers)
            && s'.notified == s.notified + s.queue + s.channel
  {
    assert IsRun(s, []) && After(s, []) == s;
    hide IsRun, After;
    Extend(s, [], Leave);
    Extend(s, [] + [Leave], Close);
    acts := DrainsQueue(s, [] + [Leave] + [Close]);
    acts := DrainsChannel(s, acts);
    Extend(s, acts, Exit);
    acts := acts + [Exit];
  }

  lemma {:induction false} DrainsQueue(s: State, acts: seq<Action>) returns (more: seq<Action>)
    requires IsRun(s, acts) && After(s, acts).mode == Draining
    ensures IsRun(s, more)
    ensures var now, s' := After(s, acts), After(s, more);
            s' == now.(queue := [], notified := now.notified + now.queue, sleepers := s'.sleepers)
    decreases |After(s, acts).queue|
  {
    hide IsRun, After, Notify, IsMin;
    var now := After(s, acts);
    more := acts;
    if now.queue != [] {
      Extend(s, acts, DrainQueue(0));
      assert Without(now.queue, 0) == now.queue[1..] && now.queue == [now.queue[0]] + now.queue[1..];
      more := DrainsQueue(s, acts + [DrainQueue(0)]);
    }
  }

  lemma {:induction false} DrainsChannel(s: State, acts: seq<Action>) returns (more: seq<Action>)
    requires IsRun(s, acts) && After(s, acts).mode == Draining && After(s, acts).queue == []
    ensures IsRun(s, more)
    ensures var now, s' := After(s, acts), After(s, more);
            s' == now.(channel := [], notified := now.notified + now.channel, sleepers := s'.sleepers)
    decreases |After(s, acts).channel|
  {
    hide IsRun, After, Notify;
    var now := After(s, acts);
    more := acts;
    if now.channel != [] {
      Extend(s, acts, DrainChannel);
      assert now.channel == [now.channel[0]] + now.channel[1..];
      more := DrainsChannel(s, acts + [DrainChannel]);
    }
  }

  class SleepFuture {
    const id: nat
    const deadline: Time
    const time: EncodedTime
    const channel: TimerChannel
    var hasSink: bool
    var registered: bool

    constructor (id: nat, deadline: Time, time: EncodedTime, channel: TimerChannel)
      ensures this.id == id && this.deadline == deadline && this.time == time && this.channel == channel
      ensures !hasSink && !registered
    {
      this.id, this.deadline, this.time, this.channel := id, deadline, time, channel;
      hasSink, registered := false, false;
    }

    /** `poll`: done if the deadline is reached or the clock gone; otherwise the waker is registered,
        and the first time an entry is sent. */
    method Poll() returns (ready: bool)
      modifies this, channel
      ensures ready == (Le(deadline, time.Get()) || channel.closed)
      ensures channel.closed == old(channel.closed)
      ensures hasSink == (old(hasSink) || !ready) && registered == (old(registered) || !ready)
      ensures channel.entries ==
              if ready || old(hasSink) then old(channel.entries) else old(channel.entries) + [Entry(id, deadline)]
    {
      if Le(deadline, time.Get()) || channel.closed {
        return true;
      }
      registered := true;
      if !hasSink {
        var ok := channel.Send(Entry(id, deadline));
        if !ok {
          return true;
        }
        hasSink := true;
      }
      return false;
    }
  }
}
