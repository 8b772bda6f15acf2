/** ROS time, and its packing into the one 64-bit word that is stored atomically. */
module ClockTime {

  type u32 = n: int | 0 <= n < 0x1_0000_0000
  type u64 = n: int | 0 <= n < 0x1_0000_0000_0000_0000

  datatype Time = Time(sec: u32, nsec: u32)

  const ZERO := Time(0, 0)

  /** Seconds first, then nanoseconds. */
  predicate Le(a: Time, b: Time) {
    a.sec < b.sec || (a.sec == b.sec && a.nsec <= b.nsec)
  }

  /** Between times whose nanoseconds are below a second, this is the order of the instants. */
  lemma LeIsInstantOrder(a: Time, b: Time)
    requires a.nsec < 1_000_000_000 && b.nsec < 1_000_000_000
    ensures Le(a, b) <==> a.sec * 1_000_000_000 + a.nsec <= b.sec * 1_000_000_000 + b.nsec
  {
    if a.sec < b.sec {
      assert (a.sec + 1) * 1_000_000_000 <= b.sec * 1_000_000_000;
    } else if b.sec < a.sec {
      assert (b.sec + 1) * 1_000_000_000 <= a.sec * 1_000_000_000;
    }
  }

  /** `(sec << 32) | nsec`: the shifted seconds leave the low 32 bits free, so `|` adds. */
  function EncodeTime(t: Time): u64 {
    var sec: int, nsec: int := t.sec, t.nsec;
    sec * 0x1_0000_0000 + nsec
  }

  /** `w >> 32`, and `w as u32`. */
  function DecodeTime(w: u64): Time {
    Time(w / 0x1_0000_0000, w % 0x1_0000_0000)
  }

  /** The packing loses nothing, in either direction, and keeps the order of times. */
  lemma PackingExact(t: Time, u: Time, w: u64)
    ensures DecodeTime(EncodeTime(t)) == t
    ensures EncodeTime(DecodeTime(w)) == w
    ensures Le(t, u) <==> EncodeTime(t) <= EncodeTime(u)
  {
    var sec: int, nsec: int := t.sec, t.nsec;
    assert (sec * 0x1_0000_0000 + nsec) / 0x1_0000_0000 == sec;
  }

  /** `EncodedTime`: the clock's current time, one atomic word. */
  class EncodedTime {
    var time: u64

    constructor (t: Time)
      ensures Get() == t
    {
      time := EncodeTime(t);
      new;
      PackingExact(t, t, 0);
    }

    function Get(): Time
      reads this
    {
      DecodeTime(time)
    }

    method Set(now: Time)
      modifies this
      ensures Get() == now
    {
      time := EncodeTime(now);
      PackingExact(now, now, 0);
    }
  }
}
