/** The TCPROS header format: what bytes a header is written as, and which bytes are accepted.
    A header type is a schema: its wire names in declaration order, each with a kind and
    possibly a default. `Decode` is the sequential decoder (one field after another, first
    error wins); `Accepts` and `HeaderOf` say independently which bytes it takes and to what. */
module HeaderCodec {
  import opened Wrappers
  import opened Bytes
  import opened Utf8
  import opened Seqs

  datatype Value = Text(s: string) | Flag(b: bool)

  datatype Spec = Spec(name: string, isBool: bool, default: Option<Value>)

  type Schema = seq<Spec>

  /** A decoded header: a value for each name of its schema. */
  type Values = map<string, Value>

  datatype Reason = DuplicateField(name: string) | MissingField(name: string) | InvalidBool(text: string) | OutsideField

  datatype HeaderError =
    | InvalidLength(expected: nat, actual: nat)
    | InvalidFormat(raw: string)
    | InvalidUtf8
    | Io
    | Serde(reason: Reason)
    | TcpRosProtocol(message: string)

  /** One field as it stands on the wire. */
  datatype Pair = Pair(key: string, value: string)

  const ERROR_FIELD := "error"

  function NamesOf(schema: Schema): (names: set<string>) {
    if schema == [] then {} else {schema[0].name} + NamesOf(schema[1..])
  }

  lemma {:induction false} NamesOfExact(schema: Schema)
    ensures forall s | s in schema :: s.name in NamesOf(schema)
    ensures forall n | n in NamesOf(schema) :: exists i :: 0 <= i < |schema| && schema[i].name == n
  {
    if schema != [] {
      NamesOfExact(schema[1..]);
      assert schema == [schema[0]] + schema[1..];
      forall n | n in NamesOf(schema) ensures exists i :: 0 <= i < |schema| && schema[i].name == n {
        if n == schema[0].name {
          assert schema[0].name == n;
        } else {
          var i :| 0 <= i < |schema[1..]| && schema[1..][i].name == n;
          assert schema[i + 1].name == n;
        }
      }
    }
  }

  /** What every header type of the program satisfies. */
  ghost predicate SchemaOk(schema: Schema) {
    && (forall i, j | 0 <= i < j < |schema| :: schema[i].name != schema[j].name)
    && (forall i | 0 <= i < |schema| :: '=' !in schema[i].name && schema[i].name != ERROR_FIELD)
  }

  ghost predicate Fits(schema: Schema, h: Values) {
    && h.Keys == NamesOf(schema)
    && forall s | s in schema :: s.name in h && h[s.name].Flag? == s.isBool
  }

  // ---------------------------------------------------------------- Encoding

  function Render(v: Value): string {
    match v
    case Text(s) => s
    case Flag(b) => if b then "1" else "0"
  }

  /** `write_field`: the length (truncated to 32 bits) and the text `name=value`. */
  function EncodePair(p: Pair): bytes {
    var text := ToUtf8(p.key + "=" + p.value);
    U32Le(|text|) + text
  }

  function EncodePairs(ps: seq<Pair>): bytes {
    if ps == [] then [] else EncodePair(ps[0]) + EncodePairs(ps[1..])
  }

  function PairsOf(schema: Schema, h: Values): (ps: seq<Pair>)
    requires NamesOf(schema) <= h.Keys
  {
    if schema == [] then []
    else
      [Pair(schema[0].name, Render(h[schema[0].name]))] + PairsOf(schema[1..], h)
  }

  /** `to_bytes`. */
  function Encode(schema: Schema, h: Values): bytes
    requires NamesOf(schema) <= h.Keys
  {
    var body := EncodePairs(PairsOf(schema, h));
    U32Le(|body|) + body
  }

  // ---------------------------------------------------------------- Decoding

  /** `split_once('=')`. */
  function SplitOnce(raw: string): Option<Pair> {
    if raw == "" then None
    else if raw[0] == '=' then Some(Pair("", raw[1..]))
    else
      match SplitOnce(raw[1..])
      case None => None
      case Some(p) => Some(Pair([raw[0]] + p.key, p.value))
  }

  function ParseValue(isBool: bool, text: string): Result<Value, HeaderError> {
    if !isBool then Ok(Text(text))
    else if text == "0" then Ok(Flag(false))
    else if text == "1" then Ok(Flag(true))
    else Err(Serde(InvalidBool(text)))
  }

  function Find(schema: Schema, name: string): (s: Option<Spec>)
    ensures s.None? <==> name !in NamesOf(schema)
    ensures s.Some? ==> s.value in schema && s.value.name == name
  {
    if schema == [] then None
    else if schema[0].name == name then Some(schema[0])
    else Find(schema[1..], name)
  }

  datatype Chunk = Chunk(text: bytes, rest: bytes) | EndOfInput | ShortRead

  /** The read of `read_raw_field`: a length and that many bytes. Fewer than four bytes end the header. */
  function NextChunk(b: bytes): (c: Chunk)
    ensures c.Chunk? ==> |c.rest| < |b|
  {
    if |b| < 4 then EndOfInput
    else
      var n := ReadU32Le(b);
      if |b| - 4 < n then ShortRead else Chunk(b[4..4 + n], b[4 + n..])
  }

  /** `from_utf8`, then `parse_field`: split at the first `=`, refuse an `error` field. */
  function ParseText(text: bytes): Result<Pair, HeaderError> {
    match FromUtf8(text)
    case None => Err(InvalidUtf8)
    case Some(raw) =>
      match SplitOnce(raw)
      case None => Err(InvalidFormat(raw))
      case Some(p) => if p.key == ERROR_FIELD then Err(TcpRosProtocol(p.value)) else Ok(p)
  }

  datatype NextResult = Field(pair: Pair, rest: bytes) | End | Bad(error: HeaderError)

  function NextField(b: bytes): (f: NextResult)
    ensures f.Field? ==> |f.rest| < |b|
  {
    match NextChunk(b)
    case EndOfInput => End
    case ShortRead => Bad(Io)
    case Chunk(text, rest) =>
      match ParseText(text)
      case Err(e) => Bad(e)
      case Ok(p) => Field(p, rest)
  }

  /** What one field does to the values collected so far. */
  function Absorb(schema: Schema, got: Values, p: Pair): Result<Values, HeaderError> {
    match Find(schema, p.key)
    case None => Ok(got)
    case Some(spec) =>
      if p.key in got then Err(Serde(DuplicateField(p.key)))
      else
        match ParseValue(spec.isBool, p.value)
        case Ok(v) => Ok(got[p.key := v])
        case Err(e) => Err(e)
  }

  function Collect(schema: Schema, got: Values, b: bytes): Result<Values, HeaderError>
    decreases |b|
  {
    match NextField(b)
    case End => Ok(got)
    case Bad(e) => Err(e)
    case Field(p, rest) =>
      match Absorb(schema, got, p)
      case Err(e) => Err(e)
      case Ok(got') => Collect(schema, got', rest)
  }

  /** Defaults for what is missing; the first missing required field is an error. */
  function Finish(schema: Schema, got: Values): Result<Values, HeaderError> {
    if schema == [] then Ok(got)
    else
      var s := schema[0];
      if s.name in got then Finish(schema[1..], got)
      else if s.default.Some? then Finish(schema[1..], got[s.name := s.default.value])
      else Err(Serde(MissingField(s.name)))
  }

  /** `from_bytes`. */
  function Decode(schema: Schema, b: bytes): Result<Values, HeaderError> {
    if |b| < 4 then Err(Io)
    else if ReadU32Le(b) != |b| - 4 then Err(InvalidLength(ReadU32Le(b), |b| - 4))
    else
      match Collect(schema, map[], b[4..])
      case Err(e) => Err(e)
      case Ok(got) => Finish(schema, got)
  }

  // ---------------------------------------------------------------- What is accepted

  /** `b` is a header: a length for the rest, then the fields, then at most three stray bytes. */
  ghost predicate Layout(b: bytes, ps: seq<Pair>, stray: bytes) {
    && IsFrame(b)
    && b[4..] == EncodePairs(ps) + stray
    && |stray| < 4
    && forall p | p in ps :: '=' !in p.key
  }

  function Occurrences(ps: seq<Pair>, key: string): nat {
    if ps == [] then 0 else (if ps[0].key == key then 1 else 0) + Occurrences(ps[1..], key)
  }

  /** The fields a header of this schema may consist of. */
  ghost predicate Accepts(schema: Schema, ps: seq<Pair>) {
    && (forall p | p in ps :: p.key != ERROR_FIELD)
    && forall s | s in schema ::
        && Occurrences(ps, s.name) <= 1
        && (s.default.None? ==> Occurrences(ps, s.name) == 1)
        && forall p | p in ps && p.key == s.name && s.isBool :: p.value == "0" || p.value == "1"
  }

  /** `h` is the header the fields spell: each name has its field's value, or its default. */
  ghost predicate HeaderOf(schema: Schema, ps: seq<Pair>, h: Values) {
    && h.Keys == NamesOf(schema)
    && forall s | s in schema ::
        && s.name in h
        && (Occurrences(ps, s.name) == 0 ==> s.default == Some(h[s.name]))
        && forall p | p in ps && p.key == s.name ::
            if s.isBool then h[s.name] == Flag(p.value == "1") else h[s.name] == Text(p.value)
  }

  // ---------------------------------------------------------------- Fields on the wire

  lemma {:induction false} SplitOnceExact(raw: string, p: Pair)
    ensures SplitOnce(raw) == Some(p) <==> raw == p.key + "=" + p.value && '=' !in p.key
  {
    if raw != "" && raw[0] != '=' {
      if p.key != "" {
        SplitOnceExact(raw[1..], Pair(p.key[1..], p.value));
        assert p.key == [p.key[0]] + p.key[1..];
        if raw == p.key + "=" + p.value {
          assert raw[1..] == p.key[1..] + "=" + p.value;
        }
        if SplitOnce(raw) == Some(p) {
          var q := SplitOnce(raw[1..]).value;
          assert p.key[1..] == q.key;
          assert raw == [raw[0]] + raw[1..];
        }
      }
    } else if raw != "" {
      if p.key == "" {
        assert p.key + "=" + p.value == "=" + p.value;
        assert raw == "=" + raw[1..];
      } else if raw == p.key + "=" + p.value {
        assert raw[0] == p.key[0];
      }
    }
  }

  lemma NextChunkExact(b: bytes, text: bytes, rest: bytes)
    ensures NextChunk(b) == Chunk(text, rest) <==> b == U32Le(|text|) + text + rest && |text| < U32_MODULUS
  {
    if b == U32Le(|text|) + text + rest && |text| < U32_MODULUS {
      assert b == U32Le(|text|) + (text + rest);
      U32RoundTrip(|text|, text + rest);
      assert b[4..4 + |text|] == text;
      assert b[4 + |text|..] == rest;
    }
    if NextChunk(b) == Chunk(text, rest) {
      U32Canonical(b);
      assert b == b[..4] + text + rest;
    }
  }

  /** A field's text parses to `p` exactly when it is `p`'s key and value around the first `=`. */
  lemma ParseTextExact(text: bytes, p: Pair)
    ensures ParseText(text) == Ok(p) <==>
            text == ToUtf8(p.key + "=" + p.value) && '=' !in p.key && p.key != ERROR_FIELD
  {
    var raw := p.key + "=" + p.value;
    SplitOnceExact(raw, p);
    Utf8Exact(raw, text);
    if ParseText(text) == Ok(p) {
      var raw' := FromUtf8(text).value;
      SplitOnceExact(raw', p);
    }
  }

  /** The next field is `p` exactly when its encoding, with a length that fits, stands at the front. */
  lemma NextFieldExact(b: bytes, p: Pair, rest: bytes)
    ensures NextField(b) == Field(p, rest) <==>
            && b == EncodePair(p) + rest
            && '=' !in p.key && p.key != ERROR_FIELD
            && |ToUtf8(p.key + "=" + p.value)| < U32_MODULUS
  {
    var text := ToUtf8(p.key + "=" + p.value);
    NextChunkExact(b, text, rest);
    ParseTextExact(text, p);
    if NextField(b) == Field(p, rest) {
      ParseTextExact(NextChunk(b).text, p);
    }
  }

  /** All fields of a body, and what is left when no further length can be read. */
  function ParsePairs(b: bytes): Option<(seq<Pair>, bytes)>
    decreases |b|
  {
    match NextField(b)
    case End => Some(([], b))
    case Bad(_) => None
    case Field(p, rest) =>
      match ParsePairs(rest)
      case None => None
      case Some((ps, stray)) => Some(([p] + ps, stray))
  }

  ghost predicate Writable(ps: seq<Pair>) {
    forall p | p in ps :: '=' !in p.key && p.key != ERROR_FIELD && |ToUtf8(p.key + "=" + p.value)| < U32_MODULUS
  }

  lemma {:induction false} ParsePairsExact(b: bytes, ps: seq<Pair>, stray: bytes)
    ensures ParsePairs(b) == Some((ps, stray)) <==>
            b == EncodePairs(ps) + stray && |stray| < 4 && Writable(ps)
    decreases |b| + |ps|
  {
    if ps == [] {
      assert EncodePairs(ps) + stray == stray;
    } else {
      var p := ps[0];
      assert ps == [p] + ps[1..];
      var rest := EncodePairs(ps[1..]) + stray;
      assert EncodePairs(ps) + stray == EncodePair(p) + rest;
      NextFieldExact(b, p, rest);
      if b == EncodePairs(ps) + stray && |stray| < 4 && Writable(ps) {
        ParsePairsExact(rest, ps[1..], stray);
      }
      if ParsePairs(b) == Some((ps, stray)) {
        var f := NextField(b);
        assert f.pair == ([f.pair] + ParsePairs(f.rest).value.0)[0] == p;
        NextFieldExact(b, p, f.rest);
        assert ParsePairs(f.rest).value.0 == ps[1..];
        ParsePairsExact(f.rest, ps[1..], stray);
      }
    }
  }

  /** A field's encoding at the front is that of one field, and leaves one rest. */
  lemma FirstUnique(b: bytes, p: Pair, rest: bytes, p': Pair, rest': bytes)
    requires b == EncodePair(p) + rest == EncodePair(p') + rest' && |b| < U32_MODULUS
    requires '=' !in p.key && '=' !in p'.key
    ensures p == p' && rest == rest'
  {
    var raw, raw' := p.key + "=" + p.value, p'.key + "=" + p'.value;
    NextChunkExact(b, ToUtf8(raw), rest);
    NextChunkExact(b, ToUtf8(raw'), rest');
    Utf8Exact(raw, ToUtf8(raw));
    Utf8Exact(raw', ToUtf8(raw));
    SplitOnceExact(raw, p);
    SplitOnceExact(raw, p');
  }

  lemma {:induction false} FieldsUnique(b: bytes, ps: seq<Pair>, stray: bytes, ps': seq<Pair>, stray': bytes)
    requires b == EncodePairs(ps) + stray == EncodePairs(ps') + stray' && |b| < U32_MODULUS
    requires |stray| < 4 && |stray'| < 4
    requires forall p | p in ps + ps' :: '=' !in p.key
    ensures ps == ps' && stray == stray'
    decreases |ps|
  {
    hide EncodePair;
    if ps == [] && ps' == [] {
      assert b == stray == stray';
    } else if ps != [] && ps' != [] {
      var rest, rest' := EncodePairs(ps[1..]) + stray, EncodePairs(ps'[1..]) + stray';
      assert b == EncodePair(ps[0]) + rest == EncodePair(ps'[0]) + rest';
      assert ps[0] in ps && ps'[0] in ps';
      FirstUnique(b, ps[0], rest, ps'[0], rest');
      FieldsUnique(rest, ps[1..], stray, ps'[1..], stray');
      assert ps == [ps[0]] + ps[1..] && ps' == [ps'[0]] + ps'[1..];
    } else if ps == [] {
      PairIsLong(ps'[0]);
    } else {
      PairIsLong(ps[0]);
    }
  }

  lemma PairIsLong(p: Pair)
    ensures |EncodePair(p)| >= 4
  {
  }

  /** There is at most one way to read bytes as fields, whatever their keys. */
  lemma LayoutUnique(b: bytes, ps: seq<Pair>, stray: bytes, ps': seq<Pair>, stray': bytes)
    requires Layout(b, ps, stray) && Layout(b, ps', stray')
    ensures ps == ps' && stray == stray'
  {
    U32Canonical(b);
    FieldsUnique(b[4..], ps, stray, ps', stray');
  }

  lemma {:induction false} PairLength(ps: seq<Pair>, p: Pair)
    requires p in ps
    ensures |ToUtf8(p.key + "=" + p.value)| < |EncodePairs(ps)|
  {
    if p != ps[0] {
      PairLength(ps[1..], p);
    }
  }

  lemma LayoutParses(b: bytes, ps: seq<Pair>, stray: bytes)
    requires IsFrame(b)
    ensures Layout(b, ps, stray) && (forall p | p in ps :: p.key != ERROR_FIELD)
            <==> ParsePairs(b[4..]) == Some((ps, stray))
  {
    ParsePairsExact(b[4..], ps, stray);
    if Layout(b, ps, stray) {
      U32Canonical(b);
      forall p | p in ps ensures |ToUtf8(p.key + "=" + p.value)| < U32_MODULUS {
        PairLength(ps, p);
      }
    }
  }

  // ---------------------------------------------------------------- Decoding the fields

  function CollectPairs(schema: Schema, got: Values, ps: seq<Pair>): Result<Values, HeaderError>
    decreases |ps|
  {
    if ps == [] then Ok(got)
    else
      match Absorb(schema, got, ps[0])
      case Err(e) => Err(e)
      case Ok(got') => CollectPairs(schema, got', ps[1..])
  }

  lemma {:induction false} CollectIsParseThenCollect(schema: Schema, got: Values, b: bytes)
    ensures ParsePairs(b).None? ==> Collect(schema, got, b).Err?
    ensures ParsePairs(b).Some? ==> Collect(schema, got, b) == CollectPairs(schema, got, ParsePairs(b).value.0)
    decreases |b|
  {
    var f := NextField(b);
    if f.Field? {
      var r := Absorb(schema, got, f.pair);
      if r.Ok? {
        CollectIsParseThenCollect(schema, r.value, f.rest);
      }
      if ParsePairs(b).Some? {
        assert ParsePairs(b).value.0[1..] == ParsePairs(f.rest).value.0;
      }
    }
  }

  ghost predicate BoolsOk(schema: Schema, ps: seq<Pair>) {
    forall s, p | s in schema && s.isBool && p in ps && p.key == s.name :: p.value == "0" || p.value == "1"
  }

  ghost predicate AtMostOnce(schema: Schema, got: Values, ps: seq<Pair>) {
    forall s | s in schema :: Occurrences(ps, s.name) <= (if s.name in got then 0 else 1)
  }

  ghost predicate Collected(schema: Schema, got: Values, ps: seq<Pair>, m: Values) {
    && got.Keys <= m.Keys <= NamesOf(schema)
    && (forall k | k in got :: m[k] == got[k])
    && (forall s | s in schema :: s.name in m <==> s.name in got || Occurrences(ps, s.name) > 0)
    && (forall s, p | s in schema && p in ps && p.key == s.name ::
          s.name in m && m[s.name] == (if s.isBool then Flag(p.value == "1") else Text(p.value)))
  }

  lemma {:induction false} OccursIffIn(ps: seq<Pair>, key: string)
    ensures Occurrences(ps, key) > 0 <==> exists p :: p in ps && p.key == key
  {
    if ps != [] {
      OccursIffIn(ps[1..], key);
      if ps[0].key == key {
        assert ps[0] in ps;
      }
    }
  }

  lemma FindUnique(schema: Schema, s: Spec)
    requires SchemaOk(schema) && s in schema
    ensures Find(schema, s.name) == Some(s)
  {
    NamesOfExact(schema);
    var i :| 0 <= i < |schema| && schema[i] == s;
    var t := Find(schema, s.name).value;
    var j :| 0 <= j < |schema| && schema[j] == t;
    assert i == j;
  }

  /** Collecting succeeds exactly when known names do not repeat and booleans are readable. */
  lemma {:induction false} CollectPairsExact(schema: Schema, got: Values, ps: seq<Pair>)
    requires SchemaOk(schema) && got.Keys <= NamesOf(schema)
    ensures CollectPairs(schema, got, ps).Ok? <==> AtMostOnce(schema, got, ps) && BoolsOk(schema, ps)
    ensures CollectPairs(schema, got, ps).Ok? ==> Collected(schema, got, ps, CollectPairs(schema, got, ps).value)
    decreases |ps|
  {
    if ps != [] {
      var p := ps[0];
      forall s | s in schema ensures Find(schema, s.name) == Some(s) {
        FindUnique(schema, s);
      }
      var r := Absorb(schema, got, p);
      if r.Ok? {
        CollectPairsExact(schema, r.value, ps[1..]);
        CollectStep(schema, got, ps, r.value);
      } else {
        var s := Find(schema, p.key).value;
        assert s in schema && s.name == p.key;
        assert p in ps;
      }
    }
  }

  lemma CollectStep(schema: Schema, got: Values, ps: seq<Pair>, got': Values)
    requires SchemaOk(schema) && ps != [] && Absorb(schema, got, ps[0]) == Ok(got')
    requires got.Keys <= NamesOf(schema)
    requires forall s | s in schema :: Find(schema, s.name) == Some(s)
    ensures AtMostOnce(schema, got, ps) <==> AtMostOnce(schema, got', ps[1..])
    ensures BoolsOk(schema, ps) <==> BoolsOk(schema, ps[1..])
    ensures forall m | Collected(schema, got', ps[1..], m) :: Collected(schema, got, ps, m)
  {
    var p := ps[0];
    assert forall q :: q in ps <==> q == p || q in ps[1..];
    forall s | s in schema
      ensures Occurrences(ps, s.name) <= (if s.name in got then 0 else 1)
              <==> Occurrences(ps[1..], s.name) <= (if s.name in got' then 0 else 1)
    {
    }
    forall m | Collected(schema, got', ps[1..], m) ensures Collected(schema, got, ps, m) {
      CollectStepMap(schema, got, ps, got', m);
    }
  }

  lemma CollectStepMap(schema: Schema, got: Values, ps: seq<Pair>, got': Values, m: Values)
    requires ps != [] && Absorb(schema, got, ps[0]) == Ok(got')
    requires forall s | s in schema :: Find(schema, s.name) == Some(s)
    requires Collected(schema, got', ps[1..], m)
    ensures Collected(schema, got, ps, m)
  {
    var p := ps[0];
    forall s, q | s in schema && q in ps && q.key == s.name
      ensures s.name in m && m[s.name] == (if s.isBool then Flag(q.value == "1") else Text(q.value))
    {
      if q !in ps[1..] {
        assert q == p;
        assert s.name in got';
      }
    }
  }

  /** Finishing succeeds exactly when every required name was collected, and only adds defaults. */
  lemma {:induction false} FinishExact(schema: Schema, got: Values)
    requires forall i, j | 0 <= i < j < |schema| :: schema[i].name != schema[j].name
    ensures Finish(schema, got).Ok? <==> forall s | s in schema :: s.default.Some? || s.name in got
    ensures Finish(schema, got).Ok? ==>
              var m := Finish(schema, got).value;
              && m.Keys == got.Keys + NamesOf(schema)
              && (forall k | k in got :: m[k] == got[k])
              && forall s | s in schema && s.name !in got :: s.name in m && Some(m[s.name]) == s.default
  {
    if schema != [] {
      var s := schema[0];
      var got' := if s.name in got || s.default.None? then got else got[s.name := s.default.value];
      FinishExact(schema[1..], got');
      assert schema == [s] + schema[1..];
    }
  }

  // ---------------------------------------------------------------- Main results

  ghost predicate RequiredPresent(schema: Schema, ps: seq<Pair>) {
    forall s | s in schema && s.default.None? :: Occurrences(ps, s.name) > 0
  }

  function DecodePairs(schema: Schema, ps: seq<Pair>): Result<Values, HeaderError> {
    match CollectPairs(schema, map[], ps)
    case Err(e) => Err(e)
    case Ok(got) => Finish(schema, got)
  }

  /** A list of fields decodes exactly when it is acceptable, and then to the header it spells. */
  lemma DecodePairsExact(schema: Schema, ps: seq<Pair>)
    requires SchemaOk(schema)
    ensures DecodePairs(schema, ps).Ok? <==>
            AtMostOnce(schema, map[], ps) && BoolsOk(schema, ps) && RequiredPresent(schema, ps)
    ensures DecodePairs(schema, ps).Ok? ==> HeaderOf(schema, ps, DecodePairs(schema, ps).value)
  {
    CollectPairsExact(schema, map[], ps);
    var r := CollectPairs(schema, map[], ps);
    if r.Ok? {
      FinishExact(schema, r.value);
      NamesOfExact(schema);
      forall s | s in schema ensures Occurrences(ps, s.name) > 0 <==> exists p :: p in ps && p.key == s.name {
        OccursIffIn(ps, s.name);
      }
    }
  }

  lemma HeaderOfUnique(schema: Schema, ps: seq<Pair>, h: Values, h': Values)
    requires HeaderOf(schema, ps, h) && HeaderOf(schema, ps, h')
    ensures h == h'
  {
    NamesOfExact(schema);
    forall k | k in h ensures h[k] == h'[k] {
      var i :| 0 <= i < |schema| && schema[i].name == k;
      var s := schema[i];
      assert s in schema;
      OccursIffIn(ps, k);
    }
  }

  lemma AcceptsParts(schema: Schema, ps: seq<Pair>)
    ensures Accepts(schema, ps) <==>
            && (forall p | p in ps :: p.key != ERROR_FIELD)
            && AtMostOnce(schema, map[], ps) && BoolsOk(schema, ps) && RequiredPresent(schema, ps)
  {
  }

  /** Which bytes are accepted, both ways: a length for the rest, then acceptable fields, then at
      most three stray bytes. */
  lemma AcceptanceExact(schema: Schema, b: bytes)
    requires SchemaOk(schema)
    ensures Decode(schema, b).Ok? <==> exists ps, stray :: Layout(b, ps, stray) && Accepts(schema, ps)
  {
    if IsFrame(b) {
      var parsed := ParsePairs(b[4..]);
      CollectIsParseThenCollect(schema, map[], b[4..]);
      if parsed.Some? {
        var (ps, stray) := parsed.value;
        LayoutParses(b, ps, stray);
        DecodePairsExact(schema, ps);
        AcceptsParts(schema, ps);
      }
      forall ps, stray | Layout(b, ps, stray) && Accepts(schema, ps) ensures parsed == Some((ps, stray)) {
        LayoutParses(b, ps, stray);
      }
    }
  }

  /** And what they decode to: the header spelled by the one list of fields they hold. */
  lemma DecodeExact(schema: Schema, b: bytes, ps: seq<Pair>, stray: bytes, h: Values)
    requires SchemaOk(schema) && Layout(b, ps, stray)
    ensures Decode(schema, b) == Ok(h) <==> Accepts(schema, ps) && HeaderOf(schema, ps, h)
  {
    hide Accepts, HeaderOf, SchemaOk;
    AcceptsParts(schema, ps);
    if exists p | p in ps :: p.key == ERROR_FIELD {
      AcceptanceExact(schema, b);
      if qs, left :| Layout(b, qs, left) && Accepts(schema, qs) {
        LayoutUnique(b, ps, stray, qs, left);
        assert false;
      }
    } else {
      DecodeErrorFree(schema, b, ps, stray, h);
    }
  }

  lemma DecodeErrorFree(schema: Schema, b: bytes, ps: seq<Pair>, stray: bytes, h: Values)
    requires SchemaOk(schema) && Layout(b, ps, stray) && forall p | p in ps :: p.key != ERROR_FIELD
    ensures Decode(schema, b) == Ok(h) <==> Accepts(schema, ps) && HeaderOf(schema, ps, h)
  {
    LayoutParses(b, ps, stray);
    CollectIsParseThenCollect(schema, map[], b[4..]);
    DecodePairsExact(schema, ps);
    AcceptsParts(schema, ps);
    if Decode(schema, b).Ok? && HeaderOf(schema, ps, h) {
      HeaderOfUnique(schema, ps, h, Decode(schema, b).value);
    }
  }

  ghost predicate DefaultsOk(schema: Schema) {
    forall s | s in schema && s.default.Some? :: s.default.value.Flag? == s.isBool
  }

  /** Whatever is decoded has a value of the right kind for each name of the schema. */
  lemma DecodedFits(schema: Schema, b: bytes)
    requires SchemaOk(schema) && DefaultsOk(schema)
    ensures Decode(schema, b).Ok? ==> Fits(schema, Decode(schema, b).value)
  {
    if Decode(schema, b).Ok? {
      var h := Decode(schema, b).value;
      AcceptanceExact(schema, b);
      var ps, stray :| Layout(b, ps, stray) && Accepts(schema, ps);
      DecodeExact(schema, b, ps, stray, h);
      forall s | s in schema ensures s.name in h && h[s.name].Flag? == s.isBool {
        OccursIffIn(ps, s.name);
      }
    }
  }

  // ---------------------------------------------------------------- Round trip

  lemma {:induction false} PairsOfSpell(schema: Schema, h: Values)
    requires NamesOf(schema) <= h.Keys
    requires forall i, j | 0 <= i < j < |schema| :: schema[i].name != schema[j].name
    ensures forall s | s in schema ::
              s.name in h && Pair(s.name, Render(h[s.name])) in PairsOf(schema, h)
              && Occurrences(PairsOf(schema, h), s.name) == 1
    ensures forall p | p in PairsOf(schema, h) ::
              p.key in NamesOf(schema) && p.value == Render(h[p.key])
    ensures forall k | k !in NamesOf(schema) :: Occurrences(PairsOf(schema, h), k) == 0
  {
    if schema != [] {
      var s := schema[0];
      PairsOfSpell(schema[1..], h);
      NamesOfExact(schema[1..]);
      assert schema == [s] + schema[1..];
      assert s.name !in NamesOf(schema[1..]);
      var ps := PairsOf(schema, h);
      assert ps == [Pair(s.name, Render(h[s.name]))] + PairsOf(schema[1..], h);
    }
  }

  /** The fields written for a header are acceptable and spell that header. */
  lemma PairsOfAccepted(schema: Schema, h: Values)
    requires SchemaOk(schema) && Fits(schema, h)
    ensures Accepts(schema, PairsOf(schema, h)) && HeaderOf(schema, PairsOf(schema, h), h)
    ensures forall p | p in PairsOf(schema, h) :: '=' !in p.key
  {
    PairsOfSpell(schema, h);
    NamesOfExact(schema);
    var ps := PairsOf(schema, h);
    forall p | p in ps ensures '=' !in p.key && p.key != ERROR_FIELD {
      var i :| 0 <= i < |schema| && schema[i].name == p.key;
    }
  }

  lemma EncodingLayout(schema: Schema, h: Values)
    requires SchemaOk(schema) && Fits(schema, h) && |Encode(schema, h)| - 4 < U32_MODULUS
    ensures Layout(Encode(schema, h), PairsOf(schema, h), [])
  {
    PairsOfAccepted(schema, h);
    var body := EncodePairs(PairsOf(schema, h));
    FrameOf(body);
    assert Encode(schema, h)[4..] == body + [];
  }

  /** Decoding what was encoded gives the header back exactly when the length fits its 32-bit prefix. */
  lemma RoundTrip(schema: Schema, h: Values)
    requires SchemaOk(schema) && Fits(schema, h)
    ensures var n := |Encode(schema, h)| - 4;
            Decode(schema, Encode(schema, h)) ==
              if n < U32_MODULUS then Ok(h) else Err(InvalidLength(n % U32_MODULUS, n))
  {
    var n := |Encode(schema, h)| - 4;
    if n < U32_MODULUS {
      EncodingLayout(schema, h);
      PairsOfAccepted(schema, h);
      DecodeExact(schema, Encode(schema, h), PairsOf(schema, h), [], h);
    } else {
      FrameOf(EncodePairs(PairsOf(schema, h)));
    }
  }

  /** Inside a stream: the frame read is the header, and exactly what follows it is left. */
  lemma RoundTripInStream(schema: Schema, h: Values, rest: bytes)
    requires SchemaOk(schema) && Fits(schema, h)
    requires |Encode(schema, h)| - 4 < U32_MODULUS
    ensures ReadFrame(Encode(schema, h) + rest) == Frame(Encode(schema, h), rest)
    ensures Decode(schema, Encode(schema, h)) == Ok(h)
  {
    RoundTrip(schema, h);
    FrameOf(EncodePairs(PairsOf(schema, h)));
    ReadFrameExact(Encode(schema, h) + rest, Encode(schema, h), rest);
  }

  /** Up to three bytes that are no field, behind the last one and counted by the length, go unnoticed. */
  lemma StrayBytesAccepted(schema: Schema, h: Values, stray: bytes)
    requires SchemaOk(schema) && Fits(schema, h) && |stray| < 4
    requires |Encode(schema, h)| - 4 + |stray| < U32_MODULUS
    ensures var body := Encode(schema, h)[4..] + stray;
            Decode(schema, U32Le(|body|) + body) == Ok(h)
  {
    hide Accepts, HeaderOf, SchemaOk;
    var ps := PairsOf(schema, h);
    var body := EncodePairs(ps) + stray;
    assert Encode(schema, h)[4..] == EncodePairs(ps);
    PairsOfAccepted(schema, h);
    AcceptsParts(schema, ps);
    FrameOf(body);
    assert (U32Le(|body|) + body)[4..] == body;
    DecodeExact(schema, U32Le(|body|) + body, ps, stray, h);
  }

  // ---------------------------------------------------------------- Order and extensions

  /** The fields of the schema among `ps`. */
  function Relevant(schema: Schema, ps: seq<Pair>): seq<Pair> {
    if ps == [] then []
    else (if ps[0].key in NamesOf(schema) then [ps[0]] else []) + Relevant(schema, ps[1..])
  }

  lemma {:induction false} RelevantKeeps(schema: Schema, ps: seq<Pair>)
    ensures forall p: Pair | p.key in NamesOf(schema) :: p in ps <==> p in Relevant(schema, ps)
    ensures forall k | k in NamesOf(schema) :: Occurrences(ps, k) == Occurrences(Relevant(schema, ps), k)
  {
    if ps != [] {
      RelevantKeeps(schema, ps[1..]);
      assert ps == [ps[0]] + ps[1..];
      if ps[0].key in NamesOf(schema) {
        assert Relevant(schema, ps)[1..] == Relevant(schema, ps[1..]);
      } else {
        assert Relevant(schema, ps) == Relevant(schema, ps[1..]);
      }
    }
  }

  lemma {:induction false} OccurrencesConcat(a: seq<Pair>, b: seq<Pair>, k: string)
    ensures Occurrences(a + b, k) == Occurrences(a, k) + Occurrences(b, k)
  {
    if a == [] {
      assert a + b == b;
    } else {
      OccurrencesConcat(a[1..], b, k);
      assert (a + b)[1..] == a[1..] + b;
    }
  }

  lemma OccurrencesRemoved(b: seq<Pair>, i: nat, k: string)
    requires i < |b|
    ensures Occurrences(b, k) == Occurrences(b[..i] + b[i + 1..], k) + (if b[i].key == k then 1 else 0)
  {
    assert b == b[..i] + b[i..];
    OccurrencesConcat(b[..i], b[i..], k);
    OccurrencesConcat(b[..i], b[i + 1..], k);
  }

  lemma {:induction false} OccurrencesOfMultiset(a: seq<Pair>, b: seq<Pair>, k: string)
    requires multiset(a) == multiset(b)
    ensures Occurrences(a, k) == Occurrences(b, k)
  {
    if a == [] {
      assert |b| == |multiset(b)| == 0;
    } else {
      assert a[0] in multiset(b);
      var i :| 0 <= i < |b| && b[i] == a[0];
      RemovedFirst(a);
      Removed(b, i);
      OccurrencesOfMultiset(a[1..], b[..i] + b[i + 1..], k);
      OccurrencesRemoved(b, i, k);
    }
  }

  /** Reordering the fields of an accepted header, and adding or dropping fields whose key the
      schema does not know (other than `error`), changes nothing about what it decodes to. */
  lemma OrderAndExtensions(schema: Schema, b: bytes, ps: seq<Pair>, stray: bytes,
                           b': bytes, ps': seq<Pair>, stray': bytes, h: Values)
    requires SchemaOk(schema)
    requires Layout(b, ps, stray) && Layout(b', ps', stray')
    requires forall p | p in ps + ps' :: p.key != ERROR_FIELD
    requires multiset(Relevant(schema, ps)) == multiset(Relevant(schema, ps'))
    ensures Decode(schema, b) == Ok(h) <==> Decode(schema, b') == Ok(h)
  {
    RelevantAgree(schema, ps, ps');
    SameAcceptance(schema, ps, ps', h);
    DecodeExact(schema, b, ps, stray, h);
    DecodeExact(schema, b', ps', stray', h);
  }

  lemma RelevantAgree(schema: Schema, ps: seq<Pair>, ps': seq<Pair>)
    requires multiset(Relevant(schema, ps)) == multiset(Relevant(schema, ps'))
    ensures forall s | s in schema :: Occurrences(ps', s.name) == Occurrences(ps, s.name)
    ensures forall p: Pair, s | s in schema && p.key == s.name :: p in ps' <==> p in ps
  {
    RelevantKeeps(schema, ps);
    RelevantKeeps(schema, ps');
    NamesOfExact(schema);
    forall s | s in schema ensures Occurrences(ps', s.name) == Occurrences(ps, s.name) {
      OccurrencesOfMultiset(Relevant(schema, ps), Relevant(schema, ps'), s.name);
    }
    forall p: Pair, s | s in schema && p.key == s.name ensures p in ps' <==> p in ps {
      assert p in multiset(Relevant(schema, ps)) <==> p in multiset(Relevant(schema, ps'));
    }
  }

  lemma SameAcceptance(schema: Schema, ps: seq<Pair>, ps': seq<Pair>, h: Values)
    requires forall s | s in schema :: Occurrences(ps', s.name) == Occurrences(ps, s.name)
    requires forall p: Pair, s | s in schema && p.key == s.name :: p in ps' <==> p in ps
    requires forall p | p in ps + ps' :: p.key != ERROR_FIELD
    ensures Accepts(schema, ps) <==> Accepts(schema, ps')
    ensures HeaderOf(schema, ps, h) <==> HeaderOf(schema, ps', h)
  {
  }
}
