/** The broadcast channel between tasks: every receiver reads one shared log at its own cursor, and
    only the newest `capacity` messages are retained. */
module Broadcast {
  import opened Bytes

  datatype Received = Got(position: nat) | Lagged(oldest: nat) | Empty

  /** The position of the oldest message still retained. */
  function Oldest(length: nat, capacity: nat): nat {
    if length > capacity then length - capacity else 0
  }

  /** `recv`: a receiver that fell behind is told so once and moved to the oldest retained message. */
  function Receive(cursor: nat, length: nat, capacity: nat): Received {
    if cursor < Oldest(length, capacity) then Lagged(Oldest(length, capacity))
    else if cursor < length then Got(cursor)
    else Empty
  }

  /** The messages at the given positions of a log. */
  function Messages(log: seq<bytes>, positions: seq<nat>): (ms: seq<bytes>)
    ensures |ms| == |positions|
  {
    seq(|positions|, i requires 0 <= i < |positions| => if positions[i] < |log| then log[positions[i]] else [])
  }

  ghost predicate Increasing(positions: seq<nat>) {
    forall i, j | 0 <= i < j < |positions| :: positions[i] < positions[j]
  }

  lemma MessagesOfLonger(log: seq<bytes>, m: bytes, positions: seq<nat>)
    requires forall p | p in positions :: p < |log|
    ensures Messages(log + [m], positions) == Messages(log, positions)
  {
    assert forall i | 0 <= i < |positions| :: positions[i] in positions;
  }

  lemma MessagesSnoc(log: seq<bytes>, positions: seq<nat>, p: nat)
    requires p < |log|
    ensures Messages(log, positions + [p]) == Messages(log, positions) + [log[p]]
  {
  }

  /** Frames are self-delimiting: two framings of one byte sequence agree as far as the shorter goes. */
  lemma {:induction false} FramesUnique(fs: seq<bytes>, gs: seq<bytes>, rest: bytes)
    requires forall f | f in fs :: IsFrame(f)
    requires forall g | g in gs :: IsFrame(g)
    requires Flatten(fs) == Flatten(gs) + rest
    ensures |gs| <= |fs| && gs == fs[..|gs|]
  {
    if gs != [] {
      assert gs[0] in gs;
      assert Flatten(gs) + rest == gs[0] + (Flatten(gs[1..]) + rest);
      ReadFrameExact(Flatten(fs), gs[0], Flatten(gs[1..]) + rest);
      assert |Flatten(fs)| >= |gs[0]| >= 4;
      if fs != [] {
        assert fs[0] in fs;
        ReadFrameExact(Flatten(fs), fs[0], Flatten(fs[1..]));
        FramesUnique(fs[1..], gs[1..], rest);
        assert fs == [fs[0]] + fs[1..] && gs == [gs[0]] + gs[1..];
      }
    }
  }
}
