/** The publication's tasks as code: the channel and its receivers, the listener's two jobs, and the
    loop that serves one subscriber. `Publication` interleaves their steps. */
module PublicationTasks {
  import opened Wrappers
  import opened Bytes
  import opened Broadcast

  class Channel {
    const capacity: nat
    var log: seq<bytes>

    constructor (capacity: nat)
      requires capacity > 0
      ensures this.capacity == capacity && log == []
    {
      this.capacity, log := capacity, [];
    }

    method Send(m: bytes)
      modifies this
      ensures log == old(log) + [m]
    {
      log := log + [m];
    }
  }

  class Receiver {
    const channel: Channel
    var next: nat

    /** `resubscribe`: a receiver for everything sent from now on. */
    constructor (channel: Channel)
      ensures this.channel == channel && next == |channel.log|
    {
      this.channel, next := channel, |channel.log|;
    }

    /** `recv`, when it does not have to wait. */
    method Recv() returns (r: Received)
      modifies this
      ensures r == Receive(old(next), |channel.log|, channel.capacity)
      ensures next == match r case Got(p) => p + 1 case Lagged(oldest) => oldest case Empty => old(next)
    {
      var oldest := Oldest(|channel.log|, channel.capacity);
      if next < oldest {
        next := oldest;
        return Lagged(oldest);
      }
      if next < |channel.log| {
        next := next + 1;
        return Got(next - 1);
      }
      return Empty;
    }
  }

  /** The writing half of a subscriber's socket. */
  class Stream {
    var written: bytes

    constructor ()
      ensures written == []
    {
      written := [];
    }

    method WriteAll(data: bytes)
      modifies this
      ensures written == old(written) + data
    {
      written := written + data;
    }
  }

  class ListenerTask {
    const latching: bool
    const dataRx: Receiver
    var latchedMessage: Option<bytes>
    var subscriberIds: set<string>

    constructor (latching: bool, dataRx: Receiver)
      ensures this.latching == latching && this.dataRx == dataRx && latchedMessage == None && subscriberIds == {}
    {
      this.latching, this.dataRx, latchedMessage, subscriberIds := latching, dataRx, None, {};
    }

    /** The latched message is the one this listener last received. */
    predicate Latched()
      reads this, dataRx, dataRx.channel
    {
      && dataRx.next <= |dataRx.channel.log|
      && (latchedMessage.Some? ==> latchedMessage.value in dataRx.channel.log[..dataRx.next])
    }

    /** The receive branch of the loop, which is only armed when latching. */
    method OnMessage()
      requires Latched() && latching
      modifies this`latchedMessage, dataRx
      ensures Latched()
      ensures match Receive(old(dataRx.next), |dataRx.channel.log|, dataRx.channel.capacity)
              case Got(p) => latchedMessage == Some(dataRx.channel.log[p]) && dataRx.next == p + 1
              case Lagged(oldest) => latchedMessage == old(latchedMessage) && dataRx.next == oldest
              case Empty => latchedMessage == old(latchedMessage) && dataRx.next == old(dataRx.next)
    {
      var r := dataRx.Recv();
      match r {
        case Got(p) =>
          latchedMessage := Some(dataRx.channel.log[p]);
          assert dataRx.channel.log[..p + 1][p] == latchedMessage.value;
        case Lagged(oldest) =>
          assert forall m | m in dataRx.channel.log[..old(dataRx.next)] :: m in dataRx.channel.log[..dataRx.next];
        case Empty =>
      }
    }

    /** The accept branch once the header exchange succeeded: what the new task starts from. */
    method OnConnection(subscriberId: string) returns (latched: Option<bytes>, rx: Receiver)
      requires Latched()
      modifies this`subscriberIds
      ensures latched == latchedMessage && fresh(rx) && rx.channel == dataRx.channel && rx.next == |rx.channel.log|
      ensures subscriberIds == old(subscriberIds) + {subscriberId}
      ensures latched.Some? ==> latched.value in rx.channel.log[..rx.next]
    {
      latched := latchedMessage;
      rx := new Receiver(dataRx.channel);
      subscriberIds := subscriberIds + {subscriberId};
      assert forall m | m in dataRx.channel.log[..dataRx.next] :: m in dataRx.channel.log;
    }

    /** What the accept branch spawns: the task until nothing is left to receive, then the removal of the
        subscriber's id. Nobody is reported under that id then, and everyone else still is. */
    method ServeSubscriber(subscriberId: string, latched: Option<bytes>, rx: Receiver, stream: Stream)
      requires rx.channel.capacity > 0 && rx.next <= |rx.channel.log|
      modifies this`subscriberIds, rx, stream
      ensures rx.next == |rx.channel.log|
      ensures stream.written == old(stream.written) + Written(latched, rx.channel.log, rx.channel.capacity, old(rx.next))
      ensures subscriberIds == old(subscriberIds) - {subscriberId}
    {
      PublisherTask(latched, rx, stream);
      subscriberIds := subscriberIds - {subscriberId};
    }
  }

  /** What a task that starts at a position writes: the latched message, then all still retained. */
  function Written(latched: Option<bytes>, log: seq<bytes>, capacity: nat, next: nat): bytes
    requires next <= |log|
  {
    (if latched.Some? then latched.value else []) + Flatten(log[FirstLeft(|log|, capacity, next)..])
  }

  /** The first position a receiver will get. */
  function FirstLeft(length: nat, capacity: nat, next: nat): (p: nat)
    requires next <= length
    ensures next <= p <= length
  {
    if next < Oldest(length, capacity) then Oldest(length, capacity) else next
  }

  /** What is written are the messages at increasing positions of the log: first that of the latched message,
      if there is one, then exactly the positions from the receiver's on that are among the newest `capacity`. */
  lemma WrittenExact(latch: Option<nat>, log: seq<bytes>, capacity: nat, next: nat) returns (ps: seq<nat>)
    requires next <= |log| && (latch.Some? ==> latch.value < next)
    ensures Increasing(ps) && (latch.Some? ==> ps != [] && ps[0] == latch.value)
    ensures forall q :: q in ps <==> latch == Some(q) || (next <= q < |log| && |log| <= q + capacity)
    ensures Written(if latch.Some? then Some(log[latch.value]) else None, log, capacity, next) == Flatten(Messages(log, ps))
  {
    var first := FirstLeft(|log|, capacity, next);
    var block := seq(|log| - first, i requires 0 <= i < |log| - first => first + i);
    ps := (if latch.Some? then [latch.value] else []) + block;
    forall q | first <= q < |log| ensures q in block {
      assert block[q - first] == q;
    }
    var latched := if latch.Some? then [log[latch.value]] else [];
    assert Messages(log, ps) == latched + log[first..];
    FlattenConcat(latched, log[first..]);
    if latch.Some? {
      assert Flatten(latched) == log[latch.value] + Flatten([]);
    }
  }

  /** `publisher_task` until nothing is left to receive: the latched message if there is one, then
      every retained message from the receiver's position on, each once and in order. */
  method PublisherTask(latched: Option<bytes>, rx: Receiver, stream: Stream)
    requires rx.channel.capacity > 0 && rx.next <= |rx.channel.log|
    modifies rx, stream
    ensures rx.next == |rx.channel.log|
    ensures stream.written == old(stream.written) + Written(latched, rx.channel.log, rx.channel.capacity, old(rx.next))
  {
    hide Flatten;
    ghost var log, before := rx.channel.log, stream.written;
    ghost var oldest := Oldest(|log|, rx.channel.capacity);
    ghost var start := FirstLeft(|log|, rx.channel.capacity, rx.next);
    if latched.Some? {
      stream.WriteAll(latched.value);
    }
    ghost var prefix := stream.written;
    WrittenNone(log, start);
    var going := true;
    while going
      invariant rx.channel.log == log && rx.next <= |log|
      invariant rx.next < oldest ==> start == oldest && stream.written == prefix
      invariant rx.next >= oldest ==> start <= rx.next && stream.written == prefix + Flatten(log[start..rx.next])
      invariant !going ==> rx.next == |log|
      decreases going, |log| - rx.next
    {
      var r := rx.Recv();
      match r {
        case Got(p) =>
          stream.WriteAll(rx.channel.log[p]);
          WrittenNext(log, start, p, prefix);
        case Lagged(_) =>
        case Empty =>
          going := false;
      }
    }
    assert log[start..|log|] == log[start..];
    Joined(before, if latched.Some? then latched.value else [], Flatten(log[start..]));
  }

  lemma WrittenNone(log: seq<bytes>, start: nat)
    requires start <= |log|
    ensures Flatten(log[start..start]) == []
  {
  }

  lemma Joined(a: bytes, b: bytes, c: bytes)
    ensures (a + b) + c == a + (b + c)
    ensures a + [] == a
  {
  }

  lemma WrittenNext(log: seq<bytes>, start: nat, p: nat, prefix: bytes)
    requires start <= p < |log|
    ensures prefix + Flatten(log[start..p]) + log[p] == prefix + Flatten(log[start..p + 1])
  {
    FlattenSnoc(log[start..p], log[p]);
    assert log[start..p] + [log[p]] == log[start..p + 1];
  }
}
