/** The subscription as code: connecting to publishers, the loop that reads one publisher's stream,
    and the handle. `Subscription` interleaves their steps. */
module SubscriptionTasks {
  import opened Wrappers
  import opened Bytes
  import opened Broadcast
  import opened Seqs
  import opened PublicationTasks

  /** The complete frames at the front of a stream. */
  function FramesIn(s: bytes): seq<bytes>
    decreases |s|
  {
    match ReadFrame(s)
    case Incomplete => []
    case Frame(f, rest) => [f] + FramesIn(rest)
  }

  lemma FrameAdvances(s: bytes)
    ensures ReadFrame(s).Frame? ==> |ReadFrame(s).rest| < |s|
    ensures ReadFrame(s).Frame? ==> FramesIn(s) == [ReadFrame(s).frame] + FramesIn(ReadFrame(s).rest)
    ensures ReadFrame(s) == Incomplete ==> FramesIn(s) == []
  {
  }

  /** They are the frames of the stream: whatever frames followed by something incomplete the stream is made
      of are these, and it is made of these. */
  lemma {:induction false} FramesInExact(s: bytes, fs: seq<bytes>, rest: bytes)
    requires ReadFrame(rest) == Incomplete && (forall f | f in fs :: IsFrame(f))
    ensures s == Flatten(fs) + rest ==> FramesIn(s) == fs
    decreases |fs|
  {
    hide IsFrame, ReadFrame;
    if s == Flatten(fs) + rest {
      FrameAdvances(s);
      if fs == [] {
        assert s == rest;
      } else {
        var after := Flatten(fs[1..]) + rest;
        assert s == fs[0] + after && fs[0] in fs;
        ReadFrameExact(s, fs[0], after);
        FramesInExact(after, fs[1..], rest);
      }
    }
  }

  lemma {:induction false} StreamIsFrames(s: bytes) returns (rest: bytes)
    ensures s == Flatten(FramesIn(s)) + rest && ReadFrame(rest) == Incomplete
    ensures forall f | f in FramesIn(s) :: IsFrame(f)
    decreases |s|
  {
    hide IsFrame, ReadFrame;
    FrameAdvances(s);
    match ReadFrame(s) {
      case Incomplete => rest := s;
      case Frame(f, after) =>
        ReadFrameExact(s, f, after);
        rest := StreamIsFrames(after);
        assert FramesIn(s)[1..] == FramesIn(after);
    }
  }

  class Connections {
    const dataTx: Channel
    var publisherAddrs: set<string>
    var latchedMsgs: map<string, bytes>
    var dialled: seq<string>   // every address a connection was attempted to

    constructor (dataTx: Channel)
      ensures this.dataTx == dataTx && publisherAddrs == {} && latchedMsgs == map[] && dialled == []
    {
      this.dataTx, publisherAddrs, latchedMsgs, dialled := dataTx, {}, map[], [];
    }

    /** `add_publisher`: nothing for an address already connected; otherwise one attempt, and the
        address is added when connecting and the header exchange succeed. */
    method AddPublisher(addr: string, ok: bool) returns (connected: bool)
      modifies this`publisherAddrs, this`dialled
      ensures connected == (addr !in old(publisherAddrs) && ok)
      ensures publisherAddrs == if connected then old(publisherAddrs) + {addr} else old(publisherAddrs)
      ensures dialled == if addr in old(publisherAddrs) then old(dialled) else old(dialled) + [addr]
    {
      if addr in publisherAddrs {
        return false;
      }
      dialled := dialled + [addr];
      if ok {
        publisherAddrs := publisherAddrs + {addr};
      }
      return ok;
    }

    /** `update_connected_publishers`: the announced addresses that are not connected are dialled, each
        once; those that answer are added, and no connected address is dialled again or dropped. */
    method Update(announced: set<string>, reachable: set<string>)
      modifies this`publisherAddrs, this`dialled
      ensures publisherAddrs == old(publisherAddrs) + announced * reachable
      ensures |dialled| >= |old(dialled)| && dialled[..|old(dialled)|] == old(dialled)
      ensures var attempts := dialled[|old(dialled)|..];
              NoRepeats(attempts) && forall a :: a in attempts <==> a in announced && a !in old(publisherAddrs)
    {
      ghost var before, done := publisherAddrs, dialled;
      ghost var attempts: seq<string> := [];
      var todo := announced - publisherAddrs;
      while todo != {}
        invariant todo <= announced - before && todo !! publisherAddrs
        invariant publisherAddrs == before + (announced - todo) * reachable
        invariant dialled == done + attempts && NoRepeats(attempts)
        invariant forall a :: a in attempts <==> a in announced && a !in before && a !in todo
        decreases todo
      {
        var addr :| addr in todo;
        var _ := AddPublisher(addr, addr in reachable);
        todo := todo - {addr};
        attempts := attempts + [addr];
      }
      assert dialled[|done|..] == attempts;
    }

    /** `subscriber_task` over the bytes that have arrived: every complete frame is forwarded in order,
        and the last one is kept for late handles when the publisher latches. */
    method SubscriberTask(stream: Reader, callerId: string, latching: bool)
      modifies stream, dataTx, this`latchedMsgs
      ensures var frames := FramesIn(old(stream.arrived));
              && dataTx.log == old(dataTx.log) + frames
              && latchedMsgs == (if latching && frames != [] then old(latchedMsgs)[callerId := frames[|frames| - 1]]
                                 else old(latchedMsgs))
    {
      hide ReadFrame, FramesIn, Retained;
      ghost var frames := FramesIn(stream.arrived);
      ghost var read: seq<bytes> := [];
      RetainedNone(latchedMsgs, callerId, latching);
      var data := Some([]);
      while data.Some?
        invariant data.Some? ==> frames == read + FramesIn(stream.arrived)
        invariant data.None? ==> frames == read
        invariant dataTx.log == old(dataTx.log) + read
        invariant latchedMsgs == Retained(old(latchedMsgs), callerId, latching, read)
        decreases data.Some?, |stream.arrived|
      {
        ghost var pending := stream.arrived;
        FrameAdvances(pending);
        data := stream.ReadTcprosFrame();
        if data.Some? {
          dataTx.Send(data.value);
          RetainedNext(old(latchedMsgs), callerId, latching, read, data.value);
          if latching {
            latchedMsgs := latchedMsgs[callerId := data.value];
          }
          assert read + FramesIn(pending) == (read + [data.value]) + FramesIn(stream.arrived);
          read := read + [data.value];
        }
      }
      RetainedLast(old(latchedMsgs), callerId, latching, read);
    }

    /** What `add_publisher` spawns: the task, then the removal of the latched frame under the publisher's
        address and of the address itself. A latching publisher's last frame stays behind exactly if its
        caller id is not its address. */
    method ServePublisher(stream: Reader, addr: string, callerId: string, latching: bool)
      modifies stream, dataTx, this`publisherAddrs, this`latchedMsgs
      ensures var frames := FramesIn(old(stream.arrived));
              && dataTx.log == old(dataTx.log) + frames
              && publisherAddrs == old(publisherAddrs) - {addr}
              && (forall c :: c in latchedMsgs <==>
                    c != addr && (c in old(latchedMsgs) || (c == callerId && latching && frames != [])))
              && (forall c | c in latchedMsgs :: latchedMsgs[c] ==
                    if c == callerId && latching && frames != [] then frames[|frames| - 1] else old(latchedMsgs)[c])
    {
      SubscriberTask(stream, callerId, latching);
      latchedMsgs := latchedMsgs - {addr};
      publisherAddrs := publisherAddrs - {addr};
    }
  }

  /** What a receive gives, if it does not have to wait. */
  datatype Yield = Yielded(frame: bytes) | LagError | Waiting

  class Subscriber {
    var latchedMsgs: seq<bytes>
    const dataRx: Receiver

    constructor (latchedMsgs: seq<bytes>, dataRx: Receiver)
      ensures this.latchedMsgs == latchedMsgs && this.dataRx == dataRx
    {
      this.latchedMsgs, this.dataRx := latchedMsgs, dataRx;
    }

    /** `recv_raw`: the latched frames first, then the channel, a lag being an error. */
    method RecvRaw() returns (r: Yield)
      modifies this`latchedMsgs, dataRx
      ensures old(latchedMsgs) != [] ==>
                r == Yielded(old(latchedMsgs)[0]) && latchedMsgs == old(latchedMsgs)[1..] && dataRx.next == old(dataRx.next)
      ensures old(latchedMsgs) == [] ==>
                && latchedMsgs == []
                && match Receive(old(dataRx.next), |dataRx.channel.log|, dataRx.channel.capacity)
                   case Got(p) => r == Yielded(dataRx.channel.log[p]) && dataRx.next == p + 1
                   case Lagged(oldest) => r == LagError && dataRx.next == oldest
                   case Empty => r == Waiting && dataRx.next == old(dataRx.next)
    {
      if latchedMsgs != [] {
        r := Yielded(latchedMsgs[0]);
        latchedMsgs := latchedMsgs[1..];
        return;
      }
      var got := dataRx.Recv();
      match got {
        case Got(p) => return Yielded(dataRx.channel.log[p]);
        case Lagged(_) => return LagError;
        case Empty => return Waiting;
      }
    }

    /** `clone`: the same latched frames, and everything forwarded from now on. */
    method Clone() returns (c: Subscriber)
      ensures fresh(c) && fresh(c.dataRx) && c.latchedMsgs == latchedMsgs
      ensures c.dataRx.channel == dataRx.channel && c.dataRx.next == |dataRx.channel.log|
    {
      var rx := new Receiver(dataRx.channel);
      c := new Subscriber(latchedMsgs, rx);
    }
  }

  /** What late handles are given once these frames were forwarded. */
  function Retained(latched: map<string, bytes>, callerId: string, latching: bool, frames: seq<bytes>): map<string, bytes> {
    if latching && frames != [] then latched[callerId := frames[|frames| - 1]] else latched
  }

  lemma RetainedNone(latched: map<string, bytes>, callerId: string, latching: bool)
    ensures Retained(latched, callerId, latching, []) == latched
  {
  }

  lemma RetainedLast(latched: map<string, bytes>, callerId: string, latching: bool, frames: seq<bytes>)
    ensures Retained(latched, callerId, latching, frames) ==
            if latching && frames != [] then latched[callerId := frames[|frames| - 1]] else latched
  {
  }

  lemma RetainedNext(latched: map<string, bytes>, callerId: string, latching: bool, frames: seq<bytes>, f: bytes)
    ensures var before := Retained(latched, callerId, latching, frames);
            Retained(latched, callerId, latching, frames + [f]) == if latching then before[callerId := f] else before
  {
    assert (frames + [f])[|frames + [f]| - 1] == f;
  }
}
