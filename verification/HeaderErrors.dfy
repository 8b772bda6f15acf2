/** What a header is refused for: the first thing wrong with its bytes, in the order they are read. */
module HeaderErrors {
  import opened Wrappers
  import opened Bytes
  import opened Utf8
  import opened HeaderCodec

  /** The fields so far are accepted: known names at most once, bools "0" or "1". */
  ghost predicate FineSoFar(schema: Schema, b: bytes, ps: seq<Pair>, rest: bytes) {
    && SchemaOk(schema) && IsFrame(b) && b[4..] == EncodePairs(ps) + rest && Writable(ps)
    && AtMostOnce(schema, map[], ps) && BoolsOk(schema, ps)
  }

  lemma {:induction false} CollectPrefix(schema: Schema, got: Values, ps: seq<Pair>, rest: bytes)
    requires Writable(ps) && CollectPairs(schema, got, ps).Ok?
    ensures Collect(schema, got, EncodePairs(ps) + rest) == Collect(schema, CollectPairs(schema, got, ps).value, rest)
    decreases |ps|
  {
    hide Absorb, NextField, EncodePair;
    if ps == [] {
      assert EncodePairs(ps) + rest == rest;
    } else {
      var b, after := EncodePairs(ps) + rest, EncodePairs(ps[1..]) + rest;
      assert ps[0] in ps && b == EncodePair(ps[0]) + after;
      NextFieldExact(b, ps[0], after);
      CollectPrefix(schema, Absorb(schema, got, ps[0]).value, ps[1..], rest);
    }
  }

  /** So the decoder goes on from there with the names it has. */
  lemma GoesOn(schema: Schema, b: bytes, ps: seq<Pair>, rest: bytes)
    requires FineSoFar(schema, b, ps, rest)
    ensures CollectPairs(schema, map[], ps).Ok?
    ensures var got := CollectPairs(schema, map[], ps).value;
            && (forall s | s in schema :: s.name in got <==> Occurrences(ps, s.name) > 0)
            && Decode(schema, b) ==
               match Collect(schema, got, rest)
               case Err(e) => Err(e)
               case Ok(all) => Finish(schema, all)
  {
    CollectPairsExact(schema, map[], ps);
    CollectPrefix(schema, map[], ps, rest);
  }

  /** The length of the whole. */
  lemma WrongLength(schema: Schema, b: bytes)
    ensures |b| < 4 ==> Decode(schema, b) == Err(Io)
    ensures |b| >= 4 && ReadU32Le(b) != |b| - 4 ==> Decode(schema, b) == Err(InvalidLength(ReadU32Le(b), |b| - 4))
  {
  }

  /** A field whose length goes beyond the end. */
  lemma FieldCutShort(schema: Schema, b: bytes, ps: seq<Pair>, rest: bytes)
    requires FineSoFar(schema, b, ps, rest) && |rest| >= 4 && ReadU32Le(rest) > |rest| - 4
    ensures Decode(schema, b) == Err(Io)
  {
    GoesOn(schema, b, ps, rest);
  }

  /** A field that is no text, or a text without '='. */
  lemma FieldMalformed(schema: Schema, b: bytes, ps: seq<Pair>, text: bytes, after: bytes, raw: string)
    requires FineSoFar(schema, b, ps, U32Le(|text|) + text + after) && |text| < U32_MODULUS
    ensures (forall s :: ToUtf8(s) != text) ==> Decode(schema, b) == Err(InvalidUtf8)
    ensures text == ToUtf8(raw) && '=' !in raw ==> Decode(schema, b) == Err(InvalidFormat(raw))
  {
    var rest := U32Le(|text|) + text + after;
    GoesOn(schema, b, ps, rest);
    NextChunkExact(rest, text, after);
    if FromUtf8(text).Some? {
      Utf8Exact(FromUtf8(text).value, text);
    }
    Utf8Exact(raw, text);
    if SplitOnce(raw).Some? {
      SplitOnceExact(raw, SplitOnce(raw).value);
    }
  }

  /** A peer's `error` field, which ends the decoding with the peer's message. */
  lemma ErrorField(schema: Schema, b: bytes, ps: seq<Pair>, message: string, after: bytes)
    requires FineSoFar(schema, b, ps, EncodePair(Pair("error", message)) + after)
    requires |ToUtf8("error" + "=" + message)| < U32_MODULUS
    ensures Decode(schema, b) == Err(TcpRosProtocol(message))
  {
    var raw, p := "error" + "=" + message, Pair("error", message);
    var rest := EncodePair(p) + after;
    GoesOn(schema, b, ps, rest);
    NextChunkExact(rest, ToUtf8(raw), after);
    Utf8Exact(raw, ToUtf8(raw));
    SplitOnceExact(raw, p);
  }

  /** A known name for the second time, or a bool that is neither "0" nor "1". */
  lemma ValueRefused(schema: Schema, b: bytes, ps: seq<Pair>, s: Spec, value: string, after: bytes)
    requires FineSoFar(schema, b, ps, EncodePair(Pair(s.name, value)) + after) && s in schema
    requires |ToUtf8(s.name + "=" + value)| < U32_MODULUS
    ensures Occurrences(ps, s.name) > 0 ==> Decode(schema, b) == Err(Serde(DuplicateField(s.name)))
    ensures Occurrences(ps, s.name) == 0 && s.isBool && value != "0" && value != "1" ==>
              Decode(schema, b) == Err(Serde(InvalidBool(value)))
  {
    hide EncodePair;
    var p := Pair(s.name, value);
    var rest := EncodePair(p) + after;
    GoesOn(schema, b, ps, rest);
    NextFieldExact(rest, p, after);
    FindUnique(schema, s);
  }

  lemma {:induction false} FirstMissing(schema: Schema, got: Values, i: nat)
    requires i < |schema| && schema[i].name !in got && schema[i].default.None?
    requires forall j | 0 <= j < i :: schema[j].name in got || schema[j].default.Some?
    requires forall j, k | 0 <= j < k < |schema| :: schema[j].name != schema[k].name
    ensures Finish(schema, got) == Err(Serde(MissingField(schema[i].name)))
    decreases i
  {
    if i > 0 {
      var s := schema[0];
      var got' := if s.name in got then got else got[s.name := s.default.value];
      FirstMissing(schema[1..], got', i - 1);
    }
  }

  /** Fields with nothing wrong, but a required one missing: the first in the header type's order. */
  lemma RequiredMissing(schema: Schema, b: bytes, ps: seq<Pair>, stray: bytes, i: nat)
    requires FineSoFar(schema, b, ps, stray) && |stray| < 4
    requires i < |schema| && schema[i].default.None? && Occurrences(ps, schema[i].name) == 0
    requires forall j | 0 <= j < i :: schema[j].default.Some? || Occurrences(ps, schema[j].name) > 0
    ensures Decode(schema, b) == Err(Serde(MissingField(schema[i].name)))
  {
    GoesOn(schema, b, ps, stray);
    assert forall j | 0 <= j <= i :: schema[j] in schema;
    FirstMissing(schema, CollectPairs(schema, map[], ps).value, i);
  }
}
