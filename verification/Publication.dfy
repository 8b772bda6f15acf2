/** The publisher's side of a topic as a state machine: sends into the broadcast channel, the
    listener task (latching, accepting, joining), one publisher task per subscriber connection, and
    the bytes on each connection up to the reader's frames. Every lock, channel operation and partial
    write is a step of its own. */
module Publication {
  import opened Wrappers
  import opened Bytes
  import opened Broadcast

  datatype Phase = Registering | Starting | Running | Finished | Gone

  /** One subscriber connection. Messages are named by their positions in the send log. */
  datatype Conn = Conn(
    id: string,
    phase: Phase,
    latch: Option<nat>,   // the latched message handed over at the join
    join: nat,            // the log's length when the receiver was made
    cursor: nat,
    lagged: bool,         // some receive reported a lag
    sent: seq<nat>,       // history: the messages whose write was begun, in order
    out: bytes,           // what `write_all` has still to write
    wire: bytes,          // written and not yet read
    parsed: seq<bytes>    // the frames the other end has read
  )

  datatype Listener = Accepting | SettingUp | Snapshot(id: string, latch: Option<nat>) | Joining(c: nat) | Stopped

  datatype State = State(
    capacity: nat,
    latching: bool,
    log: seq<bytes>,          // everything sent
    listener: Listener,
    listenerCursor: nat,
    latched: Option<nat>,     // the position of `latched_message`
    ids: set<string>,         // `subscriber_ids`
    conns: seq<Conn>
  )

  datatype Action =
    | Send(message: bytes)
    | ListenerReceive
    | Accept
    | SetupFails
    | SetupDone(id: string)
    | Resubscribe
    | InsertId
    | StopListener
    | Start(c: nat)
    | Write(c: nat, n: nat)
    | TaskReceive(c: nat)
    | Stop(c: nat)
    | Fail(c: nat)
    | Cleanup(c: nat)
    | Read(c: nat)

  function Init(capacity: nat, latching: bool): State {
    State(capacity, latching, [], Accepting, 0, None, {}, [])
  }

  predicate In(s: State, c: nat, phase: Phase) {
    c < |s.conns| && s.conns[c].phase == phase
  }

  predicate Enabled(s: State, a: Action) {
    match a
    case Send(_) => true
    case ListenerReceive =>
      s.latching && s.listener == Accepting && Receive(s.listenerCursor, |s.log|, s.capacity) != Empty
    case Accept => s.listener == Accepting
    case SetupFails => s.listener == SettingUp
    case SetupDone(_) => s.listener == SettingUp
    case Resubscribe => s.listener.Snapshot?
    case InsertId => s.listener.Joining? && In(s, s.listener.c, Registering)
    case StopListener => s.listener == Accepting
    case Start(c) => In(s, c, Starting)
    case Write(c, n) => In(s, c, Running) && 0 < n <= |s.conns[c].out|
    case TaskReceive(c) =>
      In(s, c, Running) && s.conns[c].out == [] && Receive(s.conns[c].cursor, |s.log|, s.capacity) != Empty
    case Stop(c) => In(s, c, Running) && s.conns[c].out == []
    case Fail(c) => In(s, c, Running) && s.conns[c].out != []
    case Cleanup(c) => In(s, c, Finished)
    case Read(c) => c < |s.conns| && ReadFrame(s.conns[c].wire).Frame?
  }

  function SetConn(s: State, c: nat, k: Conn): State
    requires c < |s.conns|
  {
    s.(conns := s.conns[c := k])
  }

  function Apply(s: State, a: Action): State
    requires Enabled(s, a)
  {
    match a
    case Send(m) => s.(log := s.log + [m])
    case ListenerReceive =>
      (match Receive(s.listenerCursor, |s.log|, s.capacity)
       case Got(p) => s.(latched := Some(p), listenerCursor := p + 1)
       case Lagged(oldest) => s.(listenerCursor := oldest)
       case Empty => s)
    case Accept => s.(listener := SettingUp)
    case SetupFails => s.(listener := Accepting)
    case SetupDone(id) => s.(listener := Snapshot(id, s.latched))
    case Resubscribe =>
      var k := Conn(s.listener.id, Registering, s.listener.latch, |s.log|, |s.log|, false, [], [], [], []);
      s.(conns := s.conns + [k], listener := Joining(|s.conns|))
    case InsertId =>
      var k := s.conns[s.listener.c];
      SetConn(s, s.listener.c, k.(phase := Starting)).(ids := s.ids + {k.id}, listener := Accepting)
    case StopListener => s.(listener := Stopped)
    case Start(c) =>
      var k := s.conns[c].(phase := Running);
      SetConn(s, c, if k.latch.Some? && k.latch.value < |s.log|
                    then k.(sent := [k.latch.value], out := s.log[k.latch.value]) else k)
    case Write(c, n) =>
      var k := s.conns[c];
      SetConn(s, c, k.(out := k.out[n..], wire := k.wire + k.out[..n]))
    case TaskReceive(c) =>
      var k := s.conns[c];
      SetConn(s, c, match Receive(k.cursor, |s.log|, s.capacity)
                    case Got(p) => k.(sent := k.sent + [p], out := s.log[p], cursor := p + 1)
                    case Lagged(oldest) => k.(cursor := oldest, lagged := true)
                    case Empty => k)
    case Stop(c) => SetConn(s, c, s.conns[c].(phase := Finished))
    case Fail(c) => SetConn(s, c, s.conns[c].(phase := Finished))
    case Cleanup(c) => SetConn(s, c, s.conns[c].(phase := Gone)).(ids := s.ids - {s.conns[c].id})
    case Read(c) =>
      var k := s.conns[c];
      var r := ReadFrame(k.wire);
      SetConn(s, c, k.(parsed := k.parsed + [r.frame], wire := r.rest))
  }

  ghost predicate IsRun(s: State, acts: seq<Action>)
    decreases |acts|
  {
    acts == [] || (Enabled(s, acts[0]) && IsRun(Apply(s, acts[0]), acts[1..]))
  }

  function After(s: State, acts: seq<Action>): State
    requires IsRun(s, acts)
    decreases |acts|
  {
    if acts == [] then s else After(Apply(s, acts[0]), acts[1..])
  }

  // ---------------------------------------------------------------- One connection

  function LatchPart(k: Conn): seq<nat> {
    if k.latch.Some? then [k.latch.value] else []
  }

  /** The messages a task has written: the latched one if there was one, which is older than all that
      follow; then later and later ones; with no lag, every one from the join on; and none is skipped
      unless at least `capacity` newer ones had been sent. */
  ghost predicate Shape(k: Conn, length: nat, capacity: nat) {
    var l := |LatchPart(k)|;
    && l <= |k.sent| && k.sent[..l] == LatchPart(k)
    && Increasing(k.sent)
    && (forall i | l <= i < |k.sent| :: k.join <= k.sent[i] < k.cursor)
    && (!k.lagged ==> |k.sent| - l == k.cursor - k.join && forall i | l <= i < |k.sent| :: k.sent[i] == k.join + (i - l))
    && (forall p | k.join <= p < k.cursor && p !in k.sent :: p + capacity < length)
  }

  predicate Fresh(k: Conn) {
    k.phase == Registering || k.phase == Starting
  }

  ghost predicate ConnOk(k: Conn, log: seq<bytes>, capacity: nat) {
    && k.join <= k.cursor <= |log|
    && (k.latch.Some? ==> k.latch.value < k.join)
    && (Fresh(k) ==> k.sent == [] && k.out == [] && k.wire == [] && k.parsed == [] && k.cursor == k.join && !k.lagged)
    && (!Fresh(k) ==> Shape(k, |log|, capacity))
    && (forall p | p in k.sent :: p < |log|)
    && (forall f | f in k.parsed :: IsFrame(f))
    && Flatten(Messages(log, k.sent)) == Flatten(k.parsed) + k.wire + k.out
  }

  ghost predicate ListenerOk(s: State) {
    && s.listenerCursor <= |s.log|
    && (s.latched.Some? ==> s.latched.value < s.listenerCursor)
    && (s.listenerCursor == 0 || s.latched == Some(s.listenerCursor - 1) || s.listenerCursor < |s.log|)
    && (s.listener.Snapshot? ==> s.listener.latch == s.latched)
    && (!s.latching ==> s.latched == None)
  }

  ghost predicate Inv(s: State) {
    && s.capacity > 0
    && ListenerOk(s)
    && forall c | 0 <= c < |s.conns| :: ConnOk(s.conns[c], s.log, s.capacity)
  }

  lemma SendKeeps(k: Conn, log: seq<bytes>, capacity: nat, m: bytes)
    requires ConnOk(k, log, capacity)
    ensures ConnOk(k, log + [m], capacity)
  {
    MessagesOfLonger(log, m, k.sent);
  }

  lemma StartKeeps(s: State, c: nat)
    requires Inv(s) && Enabled(s, Start(c))
    ensures ConnOk(Apply(s, Start(c)).conns[c], s.log, s.capacity)
  {
    var k := s.conns[c];
    assert ConnOk(k, s.log, s.capacity);
    if k.latch.Some? {
      var m := s.log[k.latch.value];
      assert Messages(s.log, [k.latch.value]) == [m];
      assert Flatten([m]) == m + Flatten([m][1..]) == m;
      assert Flatten([]) + [] + m == m;
    }
  }

  lemma WriteKeeps(s: State, c: nat, n: nat)
    requires Inv(s) && Enabled(s, Write(c, n))
    ensures ConnOk(Apply(s, Write(c, n)).conns[c], s.log, s.capacity)
  {
    var k := s.conns[c];
    assert ConnOk(k, s.log, s.capacity);
    assert k.out == k.out[..n] + k.out[n..];
    assert Flatten(k.parsed) + (k.wire + k.out[..n]) + k.out[n..] == Flatten(k.parsed) + k.wire + k.out;
  }

  lemma GotKeeps(k: Conn, log: seq<bytes>, capacity: nat)
    requires ConnOk(k, log, capacity) && !Fresh(k) && k.out == [] && k.cursor < |log|
    ensures ConnOk(k.(sent := k.sent + [k.cursor], out := log[k.cursor], cursor := k.cursor + 1), log, capacity)
  {
    hide Shape, IsFrame, Messages, Flatten;
    MessagesSnoc(log, k.sent, k.cursor);
    FlattenSnoc(Messages(log, k.sent), log[k.cursor]);
    var k' := k.(sent := k.sent + [k.cursor], out := log[k.cursor], cursor := k.cursor + 1);
    assert Flatten(k.parsed) + k.wire + k.out == Flatten(k.parsed) + k.wire;
    assert Flatten(Messages(log, k'.sent)) == Flatten(k.parsed) + k.wire + k'.out;
    ShapeSnoc(k, log[k.cursor], |log|, capacity);
    assert forall p | p in k'.sent :: p in k.sent || p == k.cursor;
  }

  lemma LaggedKeeps(k: Conn, log: seq<bytes>, capacity: nat)
    requires ConnOk(k, log, capacity) && !Fresh(k) && k.cursor < Oldest(|log|, capacity)
    ensures ConnOk(k.(cursor := Oldest(|log|, capacity), lagged := true), log, capacity)
  {
    assert Shape(k.(cursor := Oldest(|log|, capacity), lagged := true), |log|, capacity);
  }

  lemma ReceiveKeeps(s: State, c: nat)
    requires Inv(s) && Enabled(s, TaskReceive(c))
    ensures ConnOk(Apply(s, TaskReceive(c)).conns[c], s.log, s.capacity)
  {
    hide ConnOk;
    var k := s.conns[c];
    match Receive(k.cursor, |s.log|, s.capacity)
    case Got(p) => GotKeeps(k, s.log, s.capacity);
    case Lagged(oldest) => LaggedKeeps(k, s.log, s.capacity);
    case Empty =>
  }

  lemma ShapeSnoc(k: Conn, out: bytes, length: nat, capacity: nat)
    requires Shape(k, length, capacity) && k.cursor < length && (k.latch.Some? ==> k.latch.value < k.join)
    requires k.join <= k.cursor
    ensures Shape(k.(sent := k.sent + [k.cursor], out := out, cursor := k.cursor + 1), length, capacity)
  {
    var l := |LatchPart(k)|;
    var sent := k.sent + [k.cursor];
    assert sent[..l] == k.sent[..l];
    forall i | 0 <= i < |k.sent| ensures k.sent[i] < k.cursor {
      if i < l {
        assert k.sent[i] == k.sent[..l][i];
      }
    }
    assert sent[|k.sent|] == k.cursor;
    assert forall p | p in k.sent :: p in sent;
  }

  lemma ReadKeeps(k: Conn, log: seq<bytes>, capacity: nat)
    requires ConnOk(k, log, capacity) && ReadFrame(k.wire).Frame?
    ensures var r := ReadFrame(k.wire);
            ConnOk(k.(parsed := k.parsed + [r.frame], wire := r.rest), log, capacity)
  {
    hide Messages, Flatten, IsFrame, Increasing, Shape;
    var r := ReadFrame(k.wire);
    ReadFrameExact(k.wire, r.frame, r.rest);
    FlattenSnoc(k.parsed, r.frame);
    assert Flatten(k.parsed) + r.frame + r.rest + k.out == Flatten(k.parsed) + k.wire + k.out;
    assert k.wire != [];
    ShapeIgnores(k, r.frame, r.rest, |log|, capacity);
  }

  lemma ShapeIgnores(k: Conn, frame: bytes, wire: bytes, length: nat, capacity: nat)
    ensures Shape(k.(parsed := k.parsed + [frame], wire := wire), length, capacity) == Shape(k, length, capacity)
  {
  }

  lemma ResubscribeKeeps(s: State)
    requires Inv(s) && Enabled(s, Resubscribe)
    ensures Inv(Apply(s, Resubscribe))
  {
    var s' := Apply(s, Resubscribe);
    assert Flatten(Messages(s.log, [])) == [] + [] + [];
    forall c | 0 <= c < |s'.conns| ensures ConnOk(s'.conns[c], s'.log, s'.capacity) {
    }
  }

  lemma PhaseChange(k: Conn, phase: Phase, log: seq<bytes>, capacity: nat)
    requires ConnOk(k, log, capacity)
    requires Fresh(k) <==> Fresh(k.(phase := phase))
    ensures ConnOk(k.(phase := phase), log, capacity)
  {
    hide IsFrame, Flatten, Messages;
  }

  lemma ListenerStep(s: State, a: Action)
    requires Inv(s) && Enabled(s, a)
    requires a.Send? || a.ListenerReceive? || a.Accept? || a.SetupFails? || a.SetupDone?
             || a.Resubscribe? || a.InsertId? || a.StopListener?
    ensures Inv(Apply(s, a))
  {
    hide ConnOk;
    match a
    case Send(m) =>
      forall c | 0 <= c < |s.conns| ensures ConnOk(s.conns[c], s.log + [m], s.capacity) {
        SendKeeps(s.conns[c], s.log, s.capacity, m);
      }
    case Resubscribe => ResubscribeKeeps(s);
    case InsertId => PhaseChange(s.conns[s.listener.c], Starting, s.log, s.capacity);
    case _ =>
  }

  lemma ConnStep(s: State, a: Action)
    requires Inv(s) && Enabled(s, a)
    requires a.Start? || a.Write? || a.TaskReceive? || a.Read? || a.Stop? || a.Fail? || a.Cleanup?
    ensures Inv(Apply(s, a))
  {
    hide ConnOk, ReadFrame, Receive;
    match a
    case Start(c) => StartKeeps(s, c);
    case Write(c, n) => WriteKeeps(s, c, n);
    case TaskReceive(c) => ReceiveKeeps(s, c);
    case Read(c) => ReadKeeps(s.conns[c], s.log, s.capacity);
    case Stop(c) => PhaseChange(s.conns[c], Finished, s.log, s.capacity);
    case Fail(c) => PhaseChange(s.conns[c], Finished, s.log, s.capacity);
    case Cleanup(c) => PhaseChange(s.conns[c], Gone, s.log, s.capacity);
  }

  lemma InvStep(s: State, a: Action)
    requires Inv(s) && Enabled(s, a)
    ensures Inv(Apply(s, a))
  {
    hide Inv, Apply, Enabled;
    if a.Start? || a.Write? || a.TaskReceive? || a.Read? || a.Stop? || a.Fail? || a.Cleanup? {
      ConnStep(s, a);
    } else {
      ListenerStep(s, a);
    }
  }

  lemma {:induction false} RunInv(s: State, acts: seq<Action>)
    requires Inv(s) && IsRun(s, acts)
    ensures Inv(After(s, acts))
    decreases |acts|
  {
    if acts != [] {
      InvStep(s, acts[0]);
      RunInv(Apply(s, acts[0]), acts[1..]);
    }
  }

  // ---------------------------------------------------------------- Delivery

  /** Every message written to this connection is a frame. */
  ghost predicate SentFrames(k: Conn, log: seq<bytes>) {
    forall p | p in k.sent :: p < |log| && IsFrame(log[p])
  }

  lemma MessagesAreFrames(k: Conn, log: seq<bytes>)
    requires forall p | p in k.sent :: p < |log|
    ensures SentFrames(k, log) <==> forall m | m in Messages(log, k.sent) :: IsFrame(m)
  {
    if SentFrames(k, log) {
      forall i | 0 <= i < |k.sent| ensures IsFrame(Messages(log, k.sent)[i]) {
        assert k.sent[i] in k.sent;
      }
    }
    if forall m | m in Messages(log, k.sent) :: IsFrame(m) {
      forall p | p in k.sent ensures IsFrame(log[p]) {
        var i :| 0 <= i < |k.sent| && k.sent[i] == p;
        assert Messages(log, k.sent)[i] in Messages(log, k.sent);
      }
    }
  }

  /** If all that was written are frames, what was read are the first of them; and with nothing in flight
      what was read is what was written exactly if all that was written are frames. */
  lemma ParsedIsPrefix(k: Conn, log: seq<bytes>, capacity: nat)
    requires ConnOk(k, log, capacity)
    ensures SentFrames(k, log) ==> |k.parsed| <= |k.sent| && k.parsed == Messages(log, k.sent[..|k.parsed|])
    ensures k.wire == [] && k.out == [] ==> (k.parsed == Messages(log, k.sent) <==> SentFrames(k, log))
  {
    hide Shape, IsFrame, Flatten, SentFrames;
    var fs := Messages(log, k.sent);
    MessagesAreFrames(k, log);
    if SentFrames(k, log) {
      assert Flatten(k.parsed) + k.wire + k.out == Flatten(k.parsed) + (k.wire + k.out);
      FramesUnique(fs, k.parsed, k.wire + k.out);
      assert fs[..|k.parsed|] == Messages(log, k.sent[..|k.parsed|]);
      if k.wire == [] && k.out == [] {
        assert Flatten(fs) == Flatten(k.parsed) && Flatten(fs) + [] == Flatten(k.parsed);
        FramesUnique(k.parsed, fs, []);
        assert k.sent[..|k.parsed|] == k.sent;
      }
    }
  }

  /** End-to-end delivery: whatever the interleaving and whatever the messages, a connection's task writes
      messages of the send log at strictly increasing positions, a latched one first, then without lag
      exactly the contiguous block from the join on; and the bytes read, on the wire and unwritten are
      theirs, none missing. If they are frames, what was read are the first of these messages; and once
      nothing is in flight, what was read is all of them exactly if they are frames. */
  lemma Delivery(capacity: nat, latching: bool, acts: seq<Action>, c: nat)
    requires capacity > 0 && IsRun(Init(capacity, latching), acts)
    requires var s := After(Init(capacity, latching), acts); c < |s.conns| && !Fresh(s.conns[c])
    ensures var s := After(Init(capacity, latching), acts);
            var k := s.conns[c];
            && Increasing(k.sent) && Shape(k, |s.log|, capacity)
            && (k.latch.Some? ==> k.latch.value < k.join)
            && Flatten(Messages(s.log, k.sent)) == Flatten(k.parsed) + k.wire + k.out
            && (SentFrames(k, s.log) ==> |k.parsed| <= |k.sent| && k.parsed == Messages(s.log, k.sent[..|k.parsed|]))
            && (k.wire == [] && k.out == [] ==> (k.parsed == Messages(s.log, k.sent) <==> SentFrames(k, s.log)))
  {
    hide SentFrames;
    var s0 := Init(capacity, latching);
    RunInv(s0, acts);
    var s := After(s0, acts);
    CapacityFixed(s0, acts);
    assert ConnOk(s.conns[c], s.log, s.capacity);
    ParsedIsPrefix(s.conns[c], s.log, s.capacity);
  }

  lemma {:induction false} CapacityFixed(s: State, acts: seq<Action>)
    requires IsRun(s, acts)
    ensures After(s, acts).capacity == s.capacity && After(s, acts).latching == s.latching
    decreases |acts|
  {
    if acts != [] {
      CapacityFixed(Apply(s, acts[0]), acts[1..]);
    }
  }

  // ---------------------------------------------------------------- Which message is replayed

  /** A joining subscriber is handed the newest message sent exactly when the listener, which does not
      receive while it sets a connection up, had received every message by the time of the join. */
  lemma ReplayIsNewest(capacity: nat, acts: seq<Action>)
    requires capacity > 0 && IsRun(Init(capacity, true), acts)
    requires var s := After(Init(capacity, true), acts); s.listener.Snapshot? && s.log != []
    ensures var s := After(Init(capacity, true), acts);
            var s' := Apply(s, Resubscribe);
            var k := s'.conns[|s.conns|];
            k.join == |s.log| && (k.latch == Some(k.join - 1) <==> s.listenerCursor == |s.log|)
  {
    RunInv(Init(capacity, true), acts);
  }

  lemma {:induction false} Extend(s: State, acts: seq<Action>, a: Action)
    requires IsRun(s, acts) && Enabled(After(s, acts), a)
    ensures IsRun(s, acts + [a]) && After(s, acts + [a]) == Apply(After(s, acts), a)
    decreases |acts|
  {
    if acts == [] {
      assert [a][1..] == [];
    } else {
      Extend(Apply(s, acts[0]), acts[1..], a);
      assert (acts + [a])[1..] == acts[1..] + [a];
    }
  }

  /** A message sent after the listener's last receive and before the join is neither replayed nor
      delivered: here the replay is message 0 although message 1 was the newest. */
  lemma StaleReplay(m0: bytes, m1: bytes)
    ensures exists acts :: IsRun(Init(8, true), acts) &&
              var s := After(Init(8, true), acts);
              && s.log == [m0, m1] && |s.conns| == 1
              && s.conns[0].latch == Some(0) && s.conns[0].join == 2 && s.conns[0].sent == [0]
  {
    var s0 := Init(8, true);
    assert IsRun(s0, []) && After(s0, []) == s0;
    hide IsRun, After;
    var acts: seq<Action> := [];
    Extend(s0, acts, Send(m0));
    acts := acts + [Send(m0)];
    Extend(s0, acts, ListenerReceive);
    acts := acts + [ListenerReceive];
    Extend(s0, acts, Send(m1));
    acts := acts + [Send(m1)];
    var listening := After(s0, acts);
    assert listening == State(8, true, [m0, m1], Accepting, 1, Some(0), {}, []);
    JoinRun(s0, acts, "/late");
  }

  /** One subscriber accepted, set up and started with nothing else happening. */
  lemma JoinRun(s0: State, acts: seq<Action>, id: string)
    requires IsRun(s0, acts) && After(s0, acts).listener == Accepting && After(s0, acts).conns == []
    requires var s := After(s0, acts); s.latched.Some? && s.latched.value < |s.log|
    ensures exists acts' :: IsRun(s0, acts') &&
              var s, s' := After(s0, acts), After(s0, acts');
              s'.log == s.log && |s'.conns| == 1 && s'.conns[0].latch == s.latched
              && s'.conns[0].join == |s.log| && s'.conns[0].sent == [s.latched.value]
  {
    hide IsRun, After, Receive, ReadFrame;
    var s := After(s0, acts);
    Extend(s0, acts, Accept);
    Extend(s0, acts + [Accept], SetupDone(id));
    var ready := acts + [Accept] + [SetupDone(id)];
    assert After(s0, ready) == s.(listener := Snapshot(id, s.latched));
    Extend(s0, ready, Resubscribe);
    Extend(s0, ready + [Resubscribe], InsertId);
    Extend(s0, ready + [Resubscribe] + [InsertId], Start(0));
  }

  // ---------------------------------------------------------------- The connected-subscriber report

  /** Connections that have been reported and have not finished their cleanup. */
  predicate Live(k: Conn) {
    k.phase == Starting || k.phase == Running || k.phase == Finished
  }

  function LiveIds(conns: seq<Conn>): set<string> {
    set c | 0 <= c < |conns| && Live(conns[c]) :: conns[c].id
  }

  lemma ReportSoundStep(s: State, a: Action)
    requires s.ids <= LiveIds(s.conns) && Enabled(s, a)
    ensures Apply(s, a).ids <= LiveIds(Apply(s, a).conns)
  {
    var s' := Apply(s, a);
    forall id | id in s'.ids ensures id in LiveIds(s'.conns) {
      if id in s.ids {
        var c :| 0 <= c < |s.conns| && Live(s.conns[c]) && s.conns[c].id == id;
        assert Live(s'.conns[c]) && s'.conns[c].id == id;
      } else {
        assert Live(s'.conns[s.listener.c]) && s'.conns[s.listener.c].id == id;
      }
    }
  }

  /** Soundness: in every reachable state each reported id is that of a connection still to be cleaned up. */
  lemma {:induction false} ReportSound(s: State, acts: seq<Action>)
    requires s.ids <= LiveIds(s.conns) && IsRun(s, acts)
    ensures After(s, acts).ids <= LiveIds(After(s, acts).conns)
    decreases |acts|
  {
    if acts != [] {
      ReportSoundStep(s, acts[0]);
      ReportSound(Apply(s, acts[0]), acts[1..]);
    }
  }

  ghost predicate DistinctIds(conns: seq<Conn>) {
    forall c, d | 0 <= c < d < |conns| && Live(conns[c]) && Live(conns[d]) :: conns[c].id != conns[d].id
  }

  /** No subscriber is reported under the id of a connection that is still live. */
  ghost predicate UniqueCallers(s: State, acts: seq<Action>)
    requires IsRun(s, acts)
    decreases |acts|
  {
    acts != [] ==>
      && (acts[0] == InsertId ==> s.conns[s.listener.c].id !in LiveIds(s.conns))
      && UniqueCallers(Apply(s, acts[0]), acts[1..])
  }

  lemma LiveUnchanged(s: State, a: Action)
    requires Enabled(s, a) && a != InsertId && !a.Cleanup?
    ensures var s' := Apply(s, a);
            && s'.ids == s.ids && |s'.conns| >= |s.conns|
            && forall c | 0 <= c < |s'.conns| ::
                 if c < |s.conns| then s'.conns[c].id == s.conns[c].id && Live(s'.conns[c]) == Live(s.conns[c])
                 else !Live(s'.conns[c])
  {
  }

  lemma SameLive(conns: seq<Conn>, conns': seq<Conn>)
    requires |conns'| >= |conns|
    requires forall c | 0 <= c < |conns'| ::
               if c < |conns| then conns'[c].id == conns[c].id && Live(conns'[c]) == Live(conns[c]) else !Live(conns'[c])
    ensures LiveIds(conns') == LiveIds(conns)
    ensures DistinctIds(conns) ==> DistinctIds(conns')
  {
    forall id | id in LiveIds(conns) ensures id in LiveIds(conns') {
      var c :| 0 <= c < |conns| && Live(conns[c]) && conns[c].id == id;
      assert Live(conns'[c]) && conns'[c].id == id;
    }
  }

  lemma InsertExact(s: State)
    requires s.ids == LiveIds(s.conns) && DistinctIds(s.conns) && Enabled(s, InsertId)
    requires s.conns[s.listener.c].id !in LiveIds(s.conns)
    ensures Apply(s, InsertId).ids == LiveIds(Apply(s, InsertId).conns) && DistinctIds(Apply(s, InsertId).conns)
  {
    var s' := Apply(s, InsertId);
    ReportSoundStep(s, InsertId);
    forall c | 0 <= c < |s'.conns| && Live(s'.conns[c]) ensures s'.conns[c].id in s'.ids {
      if c != s.listener.c {
        assert s.conns[c].id in LiveIds(s.conns);
      }
    }
    forall c | 0 <= c < |s.conns| && Live(s.conns[c]) ensures s.conns[c].id != s.conns[s.listener.c].id {
      assert s.conns[c].id in LiveIds(s.conns);
    }
  }

  lemma ReportExactStep(s: State, a: Action)
    requires s.ids == LiveIds(s.conns) && DistinctIds(s.conns) && Enabled(s, a)
    requires a == InsertId ==> s.conns[s.listener.c].id !in LiveIds(s.conns)
    ensures Apply(s, a).ids == LiveIds(Apply(s, a).conns) && DistinctIds(Apply(s, a).conns)
  {
    hide LiveIds;
    if a == InsertId {
      InsertExact(s);
    } else if a.Cleanup? {
      CleanupReport(s, a.c);
    } else {
      LiveUnchanged(s, a);
      SameLive(s.conns, Apply(s, a).conns);
    }
  }

  /** Exactness: when caller ids are unique the report is exactly the set of live connections. */
  lemma {:induction false} ReportExact(s: State, acts: seq<Action>)
    requires s.ids == LiveIds(s.conns) && DistinctIds(s.conns) && IsRun(s, acts) && UniqueCallers(s, acts)
    ensures After(s, acts).ids == LiveIds(After(s, acts).conns)
    decreases |acts|
  {
    if acts != [] {
      ReportExactStep(s, acts[0]);
      ReportExact(Apply(s, acts[0]), acts[1..]);
    }
  }

  /** Exactly when a cleanup leaves an exact report exact: no other live connection has the same id. */
  lemma CleanupReport(s: State, c: nat)
    requires s.ids == LiveIds(s.conns) && Enabled(s, Cleanup(c))
    ensures var s' := Apply(s, Cleanup(c));
            s'.ids == LiveIds(s'.conns) <==>
            forall d | 0 <= d < |s.conns| && d != c && Live(s.conns[d]) :: s.conns[d].id != s.conns[c].id
  {
    var s' := Apply(s, Cleanup(c));
    ReportSoundStep(s, Cleanup(c));
    if d :| 0 <= d < |s.conns| && d != c && Live(s.conns[d]) && s.conns[d].id == s.conns[c].id {
      assert Live(s'.conns[d]) && s'.conns[d].id in LiveIds(s'.conns);
    } else {
      forall id | id in LiveIds(s'.conns) ensures id in s'.ids {
        var d :| 0 <= d < |s'.conns| && Live(s'.conns[d]) && s'.conns[d].id == id;
        assert id in LiveIds(s.conns);
      }
    }
  }

  /** Two subscribers' connections under one caller id, then the first one's cleanup. */
  function Twins(id: string, ids: set<string>, first: Phase): State {
    State(8, false, [], Accepting, 0, None, ids,
          [Conn(id, first, None, 0, 0, false, [], [], [], []), Conn(id, Running, None, 0, 0, false, [], [], [], [])])
  }

  lemma Joins(s: State, id: string)
    requires s.listener == Accepting && s.latched == None && s.log == []
    ensures var s1 := Apply(Apply(s, Accept), SetupDone(id));
            && Enabled(s, Accept) && Enabled(Apply(s, Accept), SetupDone(id)) && Enabled(s1, Resubscribe)
            && Enabled(Apply(s1, Resubscribe), InsertId)
            && Enabled(Apply(Apply(s1, Resubscribe), InsertId), Start(|s.conns|))
            && Apply(Apply(Apply(s1, Resubscribe), InsertId), Start(|s.conns|)) ==
               s.(ids := s.ids + {id}, conns := s.conns + [Conn(id, Running, None, 0, 0, false, [], [], [], [])])
  {
    hide Receive, ReadFrame;
    var k := Conn(id, Registering, None, 0, 0, false, [], [], [], []);
    var s2 := Apply(Apply(Apply(s, Accept), SetupDone(id)), Resubscribe);
    assert s2 == s.(conns := s.conns + [k], listener := Joining(|s.conns|));
    var s3 := Apply(s2, InsertId);
    assert s3.conns == s.conns + [k.(phase := Starting)];
    assert Apply(s3, Start(|s.conns|)).conns == s.conns + [k.(phase := Running)];
  }

  lemma JoinActs(s0: State, acts: seq<Action>, id: string) returns (more: seq<Action>)
    requires IsRun(s0, acts)
    requires var s := After(s0, acts); s.listener == Accepting && s.latched == None && s.log == []
    ensures IsRun(s0, more)
    ensures var s := After(s0, acts);
            After(s0, more) ==
            s.(ids := s.ids + {id}, conns := s.conns + [Conn(id, Running, None, 0, 0, false, [], [], [], [])])
  {
    var s := After(s0, acts);
    Joins(s, id);
    hide IsRun, After, Apply, Enabled;
    Extend(s0, acts, Accept);
    more := acts + [Accept];
    Extend(s0, more, SetupDone(id));
    more := more + [SetupDone(id)];
    Extend(s0, more, Resubscribe);
    more := more + [Resubscribe];
    Extend(s0, more, InsertId);
    more := more + [InsertId];
    Extend(s0, more, Start(|s.conns|));
    more := more + [Start(|s.conns|)];
  }

  /** A connected subscriber that is not reported: another one with its caller id has left. */
  lemma TwinUnreported(id: string) returns (acts: seq<Action>)
    ensures IsRun(Init(8, false), acts) && After(Init(8, false), acts) == Twins(id, {}, Gone)
    ensures id in LiveIds(After(Init(8, false), acts).conns)
  {
    var s0 := Init(8, false);
    assert IsRun(s0, []) && After(s0, []) == s0;
    hide IsRun, After, Receive, ReadFrame, LiveIds;
    acts := JoinActs(s0, [], id);
    acts := JoinActs(s0, acts, id);
    assert After(s0, acts) == Twins(id, {id}, Running);
    Extend(s0, acts, Stop(0));
    acts := acts + [Stop(0)];
    assert After(s0, acts) == Twins(id, {id}, Finished);
    Extend(s0, acts, Cleanup(0));
    acts := acts + [Cleanup(0)];
    TwinIsLive(id);
  }

  lemma TwinIsLive(id: string)
    ensures id in LiveIds(Twins(id, {}, Gone).conns)
  {
    var conns := Twins(id, {}, Gone).conns;
    assert Live(conns[1]) && conns[1].id == id;
  }
}
