/** UTF-8 as RFC 3629 defines it: the encoding table of section 3 and the grammar of section 4.
    A Rust `String` is a sequence of Unicode scalar values, which is what Dafny's `char` is. */
module Utf8 {
  import opened Wrappers
  import opened Bytes

  function EncodeChar(c: char): (b: bytes)
    ensures 1 <= |b| <= 4
  {
    var u := c as int;
    if u < 0x80 then [u]
    else if u < 0x800 then [0xC0 + u / 0x40, 0x80 + u % 0x40]
    else if u < 0x1_0000 then [0xE0 + u / 0x1000, 0x80 + u / 0x40 % 0x40, 0x80 + u % 0x40]
    else [0xF0 + u / 0x4_0000, 0x80 + u / 0x1000 % 0x40, 0x80 + u / 0x40 % 0x40, 0x80 + u % 0x40]
  }

  /** `s.as_bytes()`. */
  function ToUtf8(s: string): bytes {
    if s == "" then [] else EncodeChar(s[0]) + ToUtf8(s[1..])
  }

  /** The example of RFC 3629, section 7: U+0041 U+2262 U+0391 U+002E; and U+10348, which takes four bytes. */
  lemma RfcExample()
    ensures ToUtf8("A\U{2262}\U{0391}.") == [0x41, 0xE2, 0x89, 0xA2, 0xCE, 0x91, 0x2E]
    ensures ToUtf8("\U{10348}") == [0xF0, 0x90, 0x8D, 0x88]
  {
    var s := "A\U{2262}\U{0391}.";
    assert s[1..] == "\U{2262}\U{0391}." && s[1..][1..] == "\U{0391}." && s[1..][1..][1..] == "." && "."[1..] == "";
    assert "\U{10348}"[1..] == "";
  }

  predicate Tail(b: bytes, i: nat) {
    i < |b| && 0x80 <= b[i] <= 0xBF
  }

  /** The length of the character at the front of `b`, or 0 when none of the four forms of the grammar matches. */
  function CharLength(b: bytes): (n: nat)
    ensures n <= 4 && n <= |b|
  {
    if |b| == 0 then 0
    else if b[0] <= 0x7F then 1
    else if 0xC2 <= b[0] <= 0xDF && Tail(b, 1) then 2
    else if Tail(b, 1) && Tail(b, 2) && (
        (b[0] == 0xE0 && 0xA0 <= b[1]) || 0xE1 <= b[0] <= 0xEC
        || (b[0] == 0xED && b[1] <= 0x9F) || 0xEE <= b[0] <= 0xEF) then 3
    else if Tail(b, 1) && Tail(b, 2) && Tail(b, 3) && (
        (b[0] == 0xF0 && 0x90 <= b[1]) || 0xF1 <= b[0] <= 0xF3
        || (b[0] == 0xF4 && b[1] <= 0x8F)) then 4
    else 0
  }

  /** The scalar value of the character at the front of `b`. */
  function CharAt(b: bytes): char
    requires CharLength(b) > 0
  {
    var n := CharLength(b);
    var b0: int := b[0];
    if n == 1 then b0 as char
    else
      var b1: int := b[1] - 0x80;
      if n == 2 then ((b0 - 0xC0) * 0x40 + b1) as char
      else
        var b2: int := b[2] - 0x80;
        if n == 3 then ((b0 - 0xE0) * 0x1000 + b1 * 0x40 + b2) as char
        else
          var b3: int := b[3] - 0x80;
          ((b0 - 0xF0) * 0x4_0000 + b1 * 0x1000 + b2 * 0x40 + b3) as char
  }

  /** `String::from_utf8`. */
  function FromUtf8(b: bytes): Option<string>
    decreases |b|
  {
    if b == [] then Some("")
    else
      var n := CharLength(b);
      if n == 0 then None
      else
        match FromUtf8(b[n..])
        case None => None
        case Some(s) => Some([CharAt(b)] + s)
  }

  /** The base-64 digits of a scalar value, and the value they spell. */
  lemma Spelled(u: nat)
    ensures u / 0x40 == u / 0x1000 * 0x40 + u / 0x40 % 0x40
    ensures u / 0x1000 == u / 0x4_0000 * 0x40 + u / 0x1000 % 0x40
    ensures u == u / 0x40 * 0x40 + u % 0x40
  {
  }

  /** Every character is read back from its own encoding. */
  lemma CharRoundTrip(c: char, rest: bytes)
    ensures CharLength(EncodeChar(c) + rest) == |EncodeChar(c)|
    ensures CharAt(EncodeChar(c) + rest) == c
  {
    var u := c as int;
    var e := EncodeChar(c);
    var b := e + rest;
    Spelled(u);
    assert forall i | 0 <= i < |e| :: b[i] == e[i];
    if 0x80 <= u < 0x800 {
      assert CharLength(b) == 2;
    } else if 0x800 <= u < 0x1_0000 {
      assert CharLength(b) == 3;
    } else if 0x1_0000 <= u {
      assert CharLength(b) == 4;
    }
  }

  /** The base-64 digits of a scalar value are the payloads of its bytes. */
  lemma Digits(d3: nat, d2: nat, d1: nat, d0: nat)
    requires d2 < 0x40 && d1 < 0x40 && d0 < 0x40
    ensures var u := d3 * 0x4_0000 + d2 * 0x1000 + d1 * 0x40 + d0;
            u % 0x40 == d0 && u / 0x40 % 0x40 == d1 && u / 0x1000 % 0x40 == d2 && u / 0x4_0000 == d3
            && u / 0x40 == d3 * 0x1000 + d2 * 0x40 + d1 && u / 0x1000 == d3 * 0x40 + d2
  {
    var u := d3 * 0x4_0000 + d2 * 0x1000 + d1 * 0x40 + d0;
    assert u / 0x40 == d3 * 0x1000 + d2 * 0x40 + d1;
    assert u / 0x1000 == d3 * 0x40 + d2;
  }

  /** The grammar admits only shortest encodings: the character read determines the bytes. */
  lemma CharCanonical(b: bytes)
    requires CharLength(b) > 0
    ensures EncodeChar(CharAt(b)) == b[..CharLength(b)]
  {
    var n := CharLength(b);
    if n == 2 {
      Digits(0, 0, b[0] - 0xC0, b[1] - 0x80);
    } else if n == 3 {
      Digits(0, b[0] - 0xE0, b[1] - 0x80, b[2] - 0x80);
    } else if n == 4 {
      LongCanonical(b);
    }
  }

  lemma LongCanonical(b: bytes)
    requires CharLength(b) == 4
    ensures EncodeChar(CharAt(b)) == b[..4]
  {
    Digits(b[0] - 0xF0, b[1] - 0x80, b[2] - 0x80, b[3] - 0x80);
  }

  /** Decoding and encoding are inverse: `b` is the encoding of `s` exactly when it decodes to `s`. */
  lemma {:induction false} Utf8Exact(s: string, b: bytes)
    ensures FromUtf8(b) == Some(s) <==> b == ToUtf8(s)
    decreases |b| + |s|
  {
    if s != "" {
      CharRoundTrip(s[0], ToUtf8(s[1..]));
      var n := |EncodeChar(s[0])|;
      if b == ToUtf8(s) {
        assert b[n..] == ToUtf8(s[1..]);
        Utf8Exact(s[1..], b[n..]);
        assert s == [s[0]] + s[1..];
      }
    }
    if b != [] && FromUtf8(b) == Some(s) {
      CharCanonical(b);
      var m := CharLength(b);
      assert s[1..] == FromUtf8(b[m..]).value;
      Utf8Exact(s[1..], b[m..]);
      assert b == b[..m] + b[m..];
    }
  }
}
