/** The serializer and the deserializer as the program runs them: a cursor over the input and a
    current field on one side, a growing buffer and a current field name on the other. */
module HeaderIo {
  import opened Wrappers
  import opened Bytes
  import opened Utf8
  import opened HeaderCodec

  class Deserializer {
    const data: bytes
    var position: nat
    var currentField: Option<Pair>

    constructor (data: bytes, position: nat)
      requires position <= |data|
      ensures Valid() && Rest() == data[position..]
    {
      this.data, this.position, this.currentField := data, position, None;
    }

    predicate Valid()
      reads this
    {
      position <= |data|
    }

    /** The bytes the cursor has not passed. */
    function Rest(): bytes
      requires Valid()
      reads this
    {
      data[position..]
    }

    /** The next length-prefixed string; end of input inside the length is the end of the header. */
    method ReadRawField() returns (r: Result<Option<string>, HeaderError>)
      requires Valid()
      modifies this`position
      ensures Valid()
      ensures match NextChunk(old(Rest()))
              case EndOfInput => r == Ok(None)
              case ShortRead => r == Err(Io)
              case Chunk(text, rest) =>
                && Rest() == rest
                && r == (match FromUtf8(text) case Some(raw) => Ok(Some(raw)) case None => Err(InvalidUtf8))
    {
      ghost var before := Rest();
      if |data| - position < 4 {
        return Ok(None);
      }
      var length := ReadU32Le(data[position..]);
      position := position + 4;
      if |data| - position < length {
        return Err(Io);
      }
      var text := data[position..position + length];
      position := position + length;
      assert data[position..] == before[4 + length..];
      assert text == before[4..4 + length] by {
        assert |text| == length;
      }
      match FromUtf8(text) {
        case None => return Err(InvalidUtf8);
        case Some(raw) => return Ok(Some(raw));
      }
    }

    method ParseField() returns (r: Result<Option<Pair>, HeaderError>)
      requires Valid()
      modifies this`position
      ensures Valid()
      ensures match NextField(old(Rest()))
              case End => r == Ok(None)
              case Bad(e) => r == Err(e)
              case Field(p, rest) => r == Ok(Some(p)) && Rest() == rest
    {
      var raw := ReadRawField();
      if raw.Err? {
        return Err(raw.error);
      }
      if raw.value.None? {
        return Ok(None);
      }
      match SplitOnce(raw.value.value) {
        case None => return Err(InvalidFormat(raw.value.value));
        case Some(p) =>
          if p.key == ERROR_FIELD {
            return Err(TcpRosProtocol(p.value));
          }
          return Ok(Some(p));
      }
    }

    /** `next_key_seed`: makes the next field current and returns its key. */
    method NextKey() returns (r: Result<Option<string>, HeaderError>)
      requires Valid()
      modifies this
      ensures Valid()
      ensures match NextField(old(Rest()))
              case End => r == Ok(None)
              case Bad(e) => r == Err(e)
              case Field(p, rest) => r == Ok(Some(p.key)) && Rest() == rest && currentField == Some(p)
    {
      var field := ParseField();
      if field.Err? {
        return Err(field.error);
      }
      currentField := field.value;
      match currentField {
        case None => return Ok(None);
        case Some(p) => return Ok(Some(p.key));
      }
    }

    /** `deserialize_str`: takes the value of the current field. */
    method TakeString() returns (r: Result<string, HeaderError>)
      modifies this`currentField
      ensures currentField == None
      ensures r == match old(currentField) case Some(p) => Ok(p.value) case None => Err(Serde(OutsideField))
    {
      var field := currentField;
      currentField := None;
      match field {
        case None => return Err(Serde(OutsideField));
        case Some(p) => return Ok(p.value);
      }
    }

    /** The value of the current field, read as the schema wants it. */
    method TakeValue(isBool: bool) returns (r: Result<Value, HeaderError>)
      modifies this`currentField
      ensures currentField == None
      ensures r == match old(currentField)
                   case Some(p) => ParseValue(isBool, p.value)
                   case None => Err(Serde(OutsideField))
    {
      var text := TakeString();
      if text.Err? {
        return Err(text.error);
      }
      if !isBool {
        return Ok(Text(text.value));
      }
      if text.value == "0" {
        return Ok(Flag(false));
      }
      if text.value == "1" {
        return Ok(Flag(true));
      }
      return Err(Serde(InvalidBool(text.value)));
    }

    /** `visit_map` of a derived header type: every field in turn, unknown keys read and dropped. */
    method VisitMap(schema: Schema) returns (r: Result<Values, HeaderError>)
      requires Valid()
      modifies this
      ensures Valid() && r == Collect(schema, map[], old(Rest()))
    {
      ghost var start := Rest();
      var got: Values := map[];
      var key := NextKey();
      while key.Ok? && key.value.Some?
        invariant Valid()
        invariant key.Ok? && key.value.Some? ==>
                    currentField.Some? && currentField.value.key == key.value.value
        invariant Collect(schema, map[], start) ==
                  if key.Err? then Err(key.error)
                  else if key.value.None? then Ok(got)
                  else match Absorb(schema, got, currentField.value)
                       case Err(e) => Err(e)
                       case Ok(got') => Collect(schema, got', Rest())
        decreases if key.Ok? && key.value.Some? then 1 + |Rest()| else 0
      {
        var spec := Find(schema, key.value.value);
        if spec.None? {
          var _ := TakeString();
        } else if key.value.value in got {
          return Err(Serde(DuplicateField(key.value.value)));
        } else {
          var v := TakeValue(spec.value.isBool);
          if v.Err? {
            return Err(v.error);
          }
          got := got[key.value.value := v.value];
        }
        key := NextKey();
      }
      if key.Err? {
        return Err(key.error);
      }
      return Ok(got);
    }
  }

  /** `from_bytes`. */
  method FromBytes(schema: Schema, b: bytes) returns (r: Result<Values, HeaderError>)
    ensures r == Decode(schema, b)
  {
    if |b| < 4 {
      return Err(Io);
    }
    var expected := ReadU32Le(b);
    var actual := |b| - 4;
    if expected != actual {
      return Err(InvalidLength(expected, actual));
    }
    var deserializer := new Deserializer(b, 4);
    var collected := deserializer.VisitMap(schema);
    if collected.Err? {
      return collected;
    }
    var h := collected.value;
    var i := 0;
    while i < |schema|
      invariant 0 <= i <= |schema|
      invariant Finish(schema, collected.value) == Finish(schema[i..], h)
    {
      var s := schema[i];
      if s.name !in h {
        if s.default.None? {
          return Err(Serde(MissingField(s.name)));
        }
        h := h[s.name := s.default.value];
      }
      i := i + 1;
    }
    return Ok(h);
  }

  class Serializer {
    var buffer: bytes
    var currentFieldName: Option<string>

    /** A buffer with four bytes reserved for the length. */
    constructor ()
      ensures buffer == U32Le(0) && currentFieldName == None
    {
      buffer := U32Le(0);
      currentFieldName := None;
    }

    method WriteString(s: string)
      modifies this`buffer
      ensures buffer == old(buffer) + U32Le(|ToUtf8(s)|) + ToUtf8(s)
    {
      buffer := buffer + U32Le(|ToUtf8(s)|);
      buffer := buffer + ToUtf8(s);
    }

    method WriteField(name: string, value: string)
      modifies this`buffer
      ensures buffer == old(buffer) + EncodePair(Pair(name, value))
    {
      ghost var text := ToUtf8(name + "=" + value);
      WriteString(name + "=" + value);
      assert buffer == old(buffer) + (U32Le(|text|) + text);
    }

    /** `serialize_str` and `serialize_bool`: a value is written under the current field name. */
    method SerializeValue(v: Value) returns (r: Result<(), HeaderError>)
      modifies this
      ensures currentFieldName == None
      ensures match old(currentFieldName)
              case None => r == Err(Serde(OutsideField)) && buffer == old(buffer)
              case Some(name) => r == Ok(()) && buffer == old(buffer) + EncodePair(Pair(name, Render(v)))
    {
      var name := currentFieldName;
      currentFieldName := None;
      if name.None? {
        return Err(Serde(OutsideField));
      }
      match v {
        case Text(s) => WriteField(name.value, s);
        case Flag(b) =>
          var text := if b then "1" else "0";
          WriteField(name.value, text);
      }
      return Ok(());
    }

    method SerializeField(key: string, v: Value) returns (r: Result<(), HeaderError>)
      modifies this
      ensures r == Ok(()) && buffer == old(buffer) + EncodePair(Pair(key, Render(v)))
    {
      currentFieldName := Some(key);
      r := SerializeValue(v);
    }

    /** The length prefix, written over the reserved bytes once the fields are there. */
    method PatchLength()
      requires |buffer| >= 4
      modifies this`buffer
      ensures buffer == U32Le(|old(buffer)| - 4) + old(buffer)[4..]
    {
      var size := U32Le(|buffer| - 4);
      buffer := buffer[0 := size[0]][1 := size[1]][2 := size[2]][3 := size[3]];
    }
  }

  lemma {:induction false} EncodePairsSnoc(ps: seq<Pair>, p: Pair)
    ensures EncodePairs(ps + [p]) == EncodePairs(ps) + EncodePair(p)
  {
    if ps == [] {
      assert EncodePairs([p]) == EncodePair(p) + EncodePairs([p][1..]);
    } else {
      EncodePairsSnoc(ps[1..], p);
      assert (ps + [p])[1..] == ps[1..] + [p] && (ps + [p])[0] == ps[0];
    }
  }

  lemma {:induction false} PairsOfAt(schema: Schema, h: Values, i: nat)
    requires NamesOf(schema) <= h.Keys && i < |schema|
    ensures |PairsOf(schema, h)| == |schema|
    ensures schema[i].name in h && PairsOf(schema, h)[i] == Pair(schema[i].name, Render(h[schema[i].name]))
  {
    if i > 0 {
      PairsOfAt(schema[1..], h, i - 1);
    } else if |schema| > 1 {
      PairsOfAt(schema[1..], h, 0);
    } else {
      assert PairsOf(schema[1..], h) == [];
    }
  }

  /** `to_bytes`: fields appended in declaration order, then the length patched in. */
  method ToBytes(schema: Schema, h: Values) returns (b: bytes)
    requires NamesOf(schema) <= h.Keys
    ensures b == Encode(schema, h)
  {
    hide EncodePair, NamesOf, Render, LeBytes;
    var serializer := new Serializer();
    ghost var ps := PairsOf(schema, h);
    var i := 0;
    while i < |schema|
      invariant 0 <= i <= |schema| && (i > 0 ==> |ps| == |schema|)
      invariant serializer.buffer == U32Le(0) + EncodePairs(if i == 0 then [] else ps[..i])
    {
      PairsOfAt(schema, h, i);
      var _ := serializer.SerializeField(schema[i].name, h[schema[i].name]);
      EncodePairsSnoc(ps[..i], ps[i]);
      assert ps[..i] + [ps[i]] == ps[..i + 1];
      assert ps[..0] == [];
      i := i + 1;
    }
    assert (if i == 0 then [] else ps[..i]) == ps;
    serializer.PatchLength();
    return serializer.buffer;
  }
}
