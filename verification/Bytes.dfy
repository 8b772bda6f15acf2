/** Bytes, little-endian lengths and the length-prefixed TCPROS frame. */
module Bytes {
  import opened Wrappers

  type byte = b: int | 0 <= b < 256
  type bytes = seq<byte>

  const U32_MODULUS: nat := 0x1_0000_0000

  /** The low `width` bytes of `n`, least significant first. */
  function LeBytes(n: nat, width: nat): (b: bytes)
    ensures |b| == width
  {
    if width == 0 then [] else [n % 0x100] + LeBytes(n / 0x100, width - 1)
  }

  function ReadLe(b: bytes, width: nat): (n: nat)
    requires width <= |b|
  {
    if width == 0 then 0
    else
      var low: int := b[0];
      low + 0x100 * ReadLe(b[1..], width - 1)
  }

  /** `n as u32` (which truncates) as a little-endian word. */
  function U32Le(n: nat): (b: bytes)
    ensures |b| == 4
  {
    LeBytes(n, 4)
  }

  function ReadU32Le(b: bytes): nat
    requires |b| >= 4
  {
    ReadLe(b, 4)
  }

  function Power256(width: nat): (p: nat)
    ensures p > 0
  {
    if width == 0 then 1 else 0x100 * Power256(width - 1)
  }

  lemma DivModStep(n: nat, p: nat)
    requires p > 0
    ensures n % (0x100 * p) == n % 0x100 + 0x100 * (n / 0x100 % p)
  {
    var q, r := n / 0x100 / p, n / 0x100 % p;
    assert n / 0x100 == p * q + r;
    assert n == 0x100 * (p * q + r) + n % 0x100;
    assert 0x100 * (p * q) == 0x100 * p * q;
    assert 0 <= n % 0x100 + 0x100 * r < 0x100 * p;
    DivModUnique(n, 0x100 * p, q, n % 0x100 + 0x100 * r);
  }

  lemma Multiples(d: nat, k: int)
    ensures k >= 1 ==> d * k >= d
    ensures k <= -1 ==> d * k <= 0 - d
  {
    assert d * k == d + d * (k - 1) == d * (k + 1) - d;
  }

  lemma DivModUnique(n: nat, d: nat, q: nat, r: nat)
    requires d > 0 && r < d && n == d * q + r
    ensures n % d == r
  {
    var k := n / d - q;
    assert d * k == d * (n / d) - d * q == r - n % d;
    Multiples(d, k);
  }

  lemma {:induction false} LeRoundTrip(n: nat, width: nat, rest: bytes)
    ensures ReadLe(LeBytes(n, width) + rest, width) == n % Power256(width)
  {
    if width > 0 {
      LeRoundTrip(n / 0x100, width - 1, rest);
      assert (LeBytes(n, width) + rest)[1..] == LeBytes(n / 0x100, width - 1) + rest;
      DivModStep(n, Power256(width - 1));
    }
  }

  lemma {:induction false} LeCanonical(b: bytes, width: nat)
    requires width <= |b|
    ensures LeBytes(ReadLe(b, width), width) == b[..width]
    ensures ReadLe(b, width) < Power256(width)
  {
    if width > 0 {
      LeCanonical(b[1..], width - 1);
      var n := ReadLe(b, width);
      assert n % 0x100 == b[0] && n / 0x100 == ReadLe(b[1..], width - 1);
      assert b[..width] == [b[0]] + b[1..][..width - 1];
    }
  }

  /** A reading depends only on the bytes read. */
  lemma {:induction false} ReadLePrefix(a: bytes, b: bytes, width: nat)
    requires width <= |a| && width <= |b| && a[..width] == b[..width]
    ensures ReadLe(a, width) == ReadLe(b, width)
  {
    if width > 0 {
      assert a[0] == a[..width][0] == b[..width][0] == b[0];
      assert a[1..][..width - 1] == a[..width][1..] == b[..width][1..] == b[1..][..width - 1];
      ReadLePrefix(a[1..], b[1..], width - 1);
    }
  }

  /** Reading a written length gives it back modulo 2^32, whatever follows. */
  lemma U32RoundTrip(n: nat, rest: bytes)
    ensures ReadU32Le(U32Le(n) + rest) == n % U32_MODULUS
  {
    LeRoundTrip(n, 4, rest);
    assert Power256(4) == U32_MODULUS;
  }

  /** Four bytes are determined by the number they denote. */
  lemma U32Canonical(b: bytes)
    requires |b| >= 4
    ensures U32Le(ReadU32Le(b)) == b[..4]
    ensures ReadU32Le(b) < U32_MODULUS
  {
    LeCanonical(b, 4);
    assert Power256(4) == U32_MODULUS;
  }

  /** The word spelled out: four bytes, the least significant first. */
  lemma LittleEndian(a: byte, b: byte, c: byte, d: byte, rest: bytes)
    ensures var n: int := a + 0x100 * b + 0x1_0000 * c + 0x100_0000 * d;
            0 <= n < U32_MODULUS && ReadU32Le([a, b, c, d] + rest) == n && U32Le(n) == [a, b, c, d]
  {
    var w: bytes := [a, b, c, d];
    var s := w + rest;
    assert s[1..] == [b, c, d] + rest && s[1..][1..] == [c, d] + rest && s[1..][1..][1..] == [d] + rest;
    assert ReadLe(s[1..][1..][1..], 1) == d && ReadLe(s[1..][1..], 2) == c + 0x100 * d;
    assert ReadLe(s[1..], 3) == b + 0x100 * (c + 0x100 * d);
    U32Canonical(s);
    assert s[..4] == w;
  }

  /** A complete frame: a length prefix and exactly that many bytes of body. */
  predicate IsFrame(f: bytes) {
    |f| >= 4 && ReadU32Le(f) == |f| - 4
  }

  datatype FrameRead = Frame(frame: bytes, rest: bytes) | Incomplete

  /** What `read_tcpros_frame` takes from the bytes available on a stream. */
  function ReadFrame(s: bytes): FrameRead {
    if |s| < 4 then Incomplete
    else
      var n := 4 + ReadU32Le(s);
      if |s| < n then Incomplete else Frame(s[..n], s[n..])
  }

  /** Reading takes one frame exactly when one frame stands at the front. */
  lemma ReadFrameExact(s: bytes, f: bytes, rest: bytes)
    ensures ReadFrame(s) == Frame(f, rest) <==> IsFrame(f) && s == f + rest
  {
    if ReadFrame(s) == Frame(f, rest) {
      assert s == f + rest;
      assert f[..4] == s[..4];
      ReadLePrefix(f, s, 4);
    }
    if IsFrame(f) && s == f + rest {
      assert f[..4] == s[..4];
      ReadLePrefix(f, s, 4);
      assert s[..|f|] == f && s[|f|..] == rest;
    }
  }

  /** Any body shorter than 2^32 bytes makes a frame. */
  lemma FrameOf(body: bytes)
    ensures IsFrame(U32Le(|body|) + body) <==> |body| < U32_MODULUS
    ensures ReadU32Le(U32Le(|body|) + body) == |body| % U32_MODULUS
  {
    U32RoundTrip(|body|, body);
  }

  function Flatten(parts: seq<bytes>): bytes {
    if parts == [] then [] else parts[0] + Flatten(parts[1..])
  }

  lemma {:induction false} FlattenConcat(a: seq<bytes>, b: seq<bytes>)
    ensures Flatten(a + b) == Flatten(a) + Flatten(b)
  {
    if a == [] {
      assert a + b == b;
    } else {
      FlattenConcat(a[1..], b);
      assert (a + b)[1..] == a[1..] + b && (a + b)[0] == a[0];
      assert a[0] + (Flatten(a[1..]) + Flatten(b)) == (a[0] + Flatten(a[1..])) + Flatten(b);
    }
  }

  lemma FlattenSnoc(a: seq<bytes>, x: bytes)
    ensures Flatten(a + [x]) == Flatten(a) + x
  {
    FlattenConcat(a, [x]);
    assert Flatten([x]) == x + Flatten([]);
  }

  /** The receiving half of a socket: bytes that have arrived and were not yet read. */
  class Reader {
    var arrived: bytes

    constructor (data: bytes)
      ensures arrived == data
    {
      arrived := data;
    }

    /** `read_exact` into `buffer[from..]`; a short stream is an error and the buffer is not used. */
    method ReadExact(buffer: array<byte>, from: nat) returns (ok: bool)
      requires from <= buffer.Length
      modifies this, buffer
      ensures ok == (|old(arrived)| >= buffer.Length - from)
      ensures ok ==> arrived == old(arrived)[buffer.Length - from..]
      ensures ok ==> buffer[..] == old(buffer[..from]) + old(arrived)[..buffer.Length - from]
      ensures !ok ==> arrived == []
    {
      var want := buffer.Length - from;
      if |arrived| < want {
        arrived := [];
        return false;
      }
      var i := 0;
      while i < want
        invariant 0 <= i <= want
        invariant arrived == old(arrived)
        invariant buffer[..from] == old(buffer[..from])
        invariant buffer[from..from + i] == old(arrived)[..i]
      {
        buffer[from + i] := arrived[i];
        i := i + 1;
      }
      arrived := arrived[want..];
      assert buffer[..] == buffer[..from] + buffer[from..from + want];
      return true;
    }

    /** `read_u32_le`. */
    method ReadLength() returns (r: Option<nat>)
      modifies this
      ensures r == if |old(arrived)| < 4 then None else Some(ReadU32Le(old(arrived)))
      ensures arrived == if r.Some? then old(arrived)[4..] else []
    {
      var prefix := new byte[4];
      var ok := ReadExact(prefix, 0);
      if !ok {
        return None;
      }
      assert prefix[..] == old(arrived)[..4];
      ReadLePrefix(prefix[..], old(arrived), 4);
      return Some(ReadU32Le(prefix[..]));
    }

    /** A buffer for a frame whose length prefix is `n.to_le_bytes()`. */
    static method FrameBuffer(n: nat) returns (buffer: array<byte>)
      ensures fresh(buffer) && buffer.Length == n + 4 && buffer[..4] == U32Le(n)
    {
      buffer := new byte[n + 4];
      var le := U32Le(n);
      buffer[0], buffer[1], buffer[2], buffer[3] := le[0], le[1], le[2], le[3];
      assert buffer[..4] == le;
    }

    /** `read_tcpros_frame`: the length, then a buffer holding the length again and the body. */
    method ReadTcprosFrame() returns (r: Option<bytes>)
      modifies this
      ensures match ReadFrame(old(arrived))
              case Frame(f, rest) => r == Some(f) && arrived == rest
              case Incomplete => r == None && arrived == []
    {
      var length := ReadLength();
      if length == None {
        return None;
      }
      var buffer := FrameBuffer(length.value);
      var ok := ReadExact(buffer, 4);
      if !ok {
        return None;
      }
      U32Canonical(old(arrived));
      assert old(arrived)[..4] + old(arrived)[4..][..length.value] == old(arrived)[..4 + length.value];
      return Some(buffer[..]);
    }
  }
}
