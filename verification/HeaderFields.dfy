/** The six header types with their fields written out: which fields a header is written as, and from
    which fields it is read. `Headers` has them as schemas. */
module HeaderFields {
  import opened Wrappers
  import opened Bytes
  import opened HeaderCodec
  import opened Headers

  function FlagText(b: bool): string {
    if b then "1" else "0"
  }

  /** The fields of a header in the order they are written. */
  function FieldsOf(h: Header): seq<Pair> {
    match h
    case Publisher(callerId, topic, md5sum, msgType, definition, latching) =>
      [Pair("callerid", callerId), Pair("topic", topic), Pair("md5sum", md5sum), Pair("type", msgType),
       Pair("message_definition", definition), Pair("latching", FlagText(latching))]
    case Subscriber(callerId, topic, md5sum, msgType, definition, tcpNodelay) =>
      [Pair("callerid", callerId), Pair("topic", topic), Pair("md5sum", md5sum), Pair("type", msgType),
       Pair("message_definition", definition), Pair("tcp_nodelay", FlagText(tcpNodelay))]
    case ServiceClient(callerId, service, md5sum, msgType, persistent) =>
      [Pair("callerid", callerId), Pair("service", service), Pair("md5sum", md5sum), Pair("type", msgType),
       Pair("persistent", FlagText(persistent))]
    case ProbeRequest(callerId, service, md5sum, probe) =>
      [Pair("callerid", callerId), Pair("service", service), Pair("md5sum", md5sum), Pair("probe", FlagText(probe))]
    case ProbeResponse(callerId, md5sum, msgType) =>
      [Pair("callerid", callerId), Pair("md5sum", md5sum), Pair("type", msgType)]
    case ServiceServer(callerId) =>
      [Pair("callerid", callerId)]
  }

  /** The fields have that key once, with that value. */
  predicate Has(ps: seq<Pair>, key: string, value: string) {
    Occurrences(ps, key) == 1 && Pair(key, value) in ps
  }

  /** Or they do not have it, and the value is the default. */
  predicate HasOr(ps: seq<Pair>, key: string, value: string, default: string) {
    Has(ps, key, value) || (Occurrences(ps, key) == 0 && value == default)
  }

  /** The fields spell the header: required ones are there, and the others are or have their defaults. */
  predicate Spells(ps: seq<Pair>, h: Header) {
    match h
    case Publisher(callerId, topic, md5sum, msgType, definition, latching) =>
      && HasOr(ps, "callerid", callerId, "unknown callerid")
      && Has(ps, "topic", topic) && Has(ps, "md5sum", md5sum) && Has(ps, "type", msgType)
      && HasOr(ps, "message_definition", definition, "") && HasOr(ps, "latching", FlagText(latching), "0")
    case Subscriber(callerId, topic, md5sum, msgType, definition, tcpNodelay) =>
      && Has(ps, "callerid", callerId)
      && Has(ps, "topic", topic) && Has(ps, "md5sum", md5sum) && Has(ps, "type", msgType)
      && HasOr(ps, "message_definition", definition, "") && HasOr(ps, "tcp_nodelay", FlagText(tcpNodelay), "0")
    case ServiceClient(callerId, service, md5sum, msgType, persistent) =>
      && HasOr(ps, "callerid", callerId, "unknown callerid")
      && Has(ps, "service", service) && Has(ps, "md5sum", md5sum) && Has(ps, "type", msgType)
      && HasOr(ps, "persistent", FlagText(persistent), "0")
    case ProbeRequest(callerId, service, md5sum, probe) =>
      && Has(ps, "callerid", callerId) && Has(ps, "service", service) && Has(ps, "md5sum", md5sum)
      && Has(ps, "probe", FlagText(probe))
    case ProbeResponse(callerId, md5sum, msgType) =>
      && HasOr(ps, "callerid", callerId, "unknown callerid")
      && Has(ps, "md5sum", md5sum) && Has(ps, "type", msgType)
    case ServiceServer(callerId) =>
      HasOr(ps, "callerid", callerId, "unknown callerid")
  }

  // ---------------------------------------------------------------- Writing

  function FieldPair(h: Header, shape: Shape): Pair {
    Pair(Wire(shape.field), Render(FieldOf(h, shape.field)))
  }

  lemma {:induction false} PairsOfShapes(h: Header, shapes: seq<Shape>, m: Values)
    requires NamesOf(SchemaFrom(shapes)) <= m.Keys
    requires forall i | 0 <= i < |shapes| ::
               Wire(shapes[i].field) in m && m[Wire(shapes[i].field)] == FieldOf(h, shapes[i].field)
    ensures |PairsOf(SchemaFrom(shapes), m)| == |shapes|
    ensures forall i | 0 <= i < |shapes| :: PairsOf(SchemaFrom(shapes), m)[i] == FieldPair(h, shapes[i])
  {
    hide Wire, FieldOf, Render;
    if shapes != [] {
      var rest := shapes[1..];
      assert SchemaFrom(shapes)[1..] == SchemaFrom(rest);
      assert forall i | 0 <= i < |rest| :: rest[i] == shapes[i + 1];
      PairsOfShapes(h, rest, m);
    }
  }

  lemma FieldsAreShapes(h: Header)
    ensures |FieldsOf(h)| == |ShapeOf(KindOf(h))|
    ensures forall i | 0 <= i < |FieldsOf(h)| :: FieldsOf(h)[i] == FieldPair(h, ShapeOf(KindOf(h))[i])
  {
    if h.Publisher? || h.Subscriber? {
      TopicFields(h);
    }
  }

  lemma TopicFields(h: Header)
    requires h.Publisher? || h.Subscriber?
    ensures |FieldsOf(h)| == |ShapeOf(KindOf(h))|
    ensures forall i | 0 <= i < |FieldsOf(h)| :: FieldsOf(h)[i] == FieldPair(h, ShapeOf(KindOf(h))[i])
  {
  }

  /** Every header is written as the length of its fields and then the fields, keys and order as they are
      written out above, bools as "1" and "0". */
  lemma ToWireExact(h: Header)
    ensures var body := EncodePairs(FieldsOf(h)); ToWire(h) == U32Le(|body|) + body
  {
    hide FieldsOf, ShapeOf, FieldOf, Wire, Render;
    var shapes := ShapeOf(KindOf(h));
    ValuesFit(h);
    DistinctFields(KindOf(h));
    ValuesFromExact(h, shapes);
    assert forall i | 0 <= i < |shapes| :: shapes[i] in shapes;
    PairsOfShapes(h, shapes, ValuesOf(h));
    FieldsAreShapes(h);
    assert PairsOf(SchemaOf(KindOf(h)), ValuesOf(h)) == FieldsOf(h);
  }

  // ---------------------------------------------------------------- Reading

  /** The fields give a shape's field that value. */
  predicate Given(ps: seq<Pair>, shape: Shape, v: Value) {
    var key := Wire(shape.field);
    || Has(ps, key, Render(v))
    || (Occurrences(ps, key) == 0 && shape.default == Some(v))
  }

  lemma {:induction false} OnlyOne(ps: seq<Pair>, key: string, p: Pair)
    requires Occurrences(ps, key) <= 1 && p in ps && p.key == key
    ensures Occurrences(ps, key) == 1
    ensures forall q | q in ps && q.key == key :: q == p
  {
    if ps != [] {
      if ps[0].key == key {
        assert Occurrences(ps[1..], key) == 0;
        OccursIffIn(ps[1..], key);
        assert forall q | q in ps :: q == ps[0] || q in ps[1..];
      } else {
        assert p in ps[1..];
        OnlyOne(ps[1..], key, p);
        assert forall q | q in ps :: q == ps[0] || q in ps[1..];
      }
    }
  }

  /** One shape: the schema accepts its fields and they spell the value, exactly if they give it. */
  lemma GivenExact(ps: seq<Pair>, shape: Shape, v: Value)
    requires v.Flag? == shape.isBool
    ensures var s := Spec(Wire(shape.field), shape.isBool, shape.default);
            Given(ps, shape, v) <==>
            && Occurrences(ps, s.name) <= 1
            && (s.default.None? ==> Occurrences(ps, s.name) == 1)
            && (forall p | p in ps && p.key == s.name && s.isBool :: p.value == "0" || p.value == "1")
            && (Occurrences(ps, s.name) == 0 ==> s.default == Some(v))
            && forall p | p in ps && p.key == s.name :: if s.isBool then v == Flag(p.value == "1") else v == Text(p.value)
  {
    hide Wire;
    var key := Wire(shape.field);
    OccursIffIn(ps, key);
    if Occurrences(ps, key) == 1 {
      var p :| p in ps && p.key == key;
      OnlyOne(ps, key, p);
      assert p == Pair(key, p.value);
    }
  }

  /** What `Accepts` and `HeaderOf` ask of one name. */
  ghost predicate SpecOk(ps: seq<Pair>, s: Spec, m: Values) {
    && s.name in m
    && Occurrences(ps, s.name) <= 1
    && (s.default.None? ==> Occurrences(ps, s.name) == 1)
    && (forall p | p in ps && p.key == s.name && s.isBool :: p.value == "0" || p.value == "1")
    && (Occurrences(ps, s.name) == 0 ==> s.default == Some(m[s.name]))
    && forall p | p in ps && p.key == s.name ::
         if s.isBool then m[s.name] == Flag(p.value == "1") else m[s.name] == Text(p.value)
  }

  lemma GivenIsSpecOk(h: Header, ps: seq<Pair>, i: nat)
    requires i < |ShapeOf(KindOf(h))|
    ensures GivenAt(h, ps, i) <==> SpecOk(ps, SchemaOf(KindOf(h))[i], ValuesOf(h))
  {
    hide ShapeOf, FieldOf, Wire, Given;
    var shapes := ShapeOf(KindOf(h));
    DistinctFields(KindOf(h));
    ValuesFromExact(h, shapes);
    KindsAgree(h);
    assert shapes[i] in shapes;
    GivenExact(ps, shapes[i], FieldOf(h, shapes[i].field));
  }

  lemma AllGivenExact(h: Header, ps: seq<Pair>)
    ensures (forall p | p in ps :: p.key != "error") && (forall i | 0 <= i < |ShapeOf(KindOf(h))| :: GivenAt(h, ps, i))
            <==> Accepts(SchemaOf(KindOf(h)), ps) && HeaderOf(SchemaOf(KindOf(h)), ps, ValuesOf(h))
  {
    hide ShapeOf, FieldOf, Wire, GivenAt, SpecOk, Accepts, HeaderOf, ValuesOf, Fits;
    forall i | 0 <= i < |ShapeOf(KindOf(h))|
      ensures GivenAt(h, ps, i) <==> SpecOk(ps, SchemaOf(KindOf(h))[i], ValuesOf(h))
    {
      GivenIsSpecOk(h, ps, i);
    }
    ValuesFit(h);
    assert ValuesOf(h).Keys == NamesOf(SchemaOf(KindOf(h))) by { FitsKeys(SchemaOf(KindOf(h)), ValuesOf(h)); }
    AcceptedIsSpecs(SchemaOf(KindOf(h)), ps, ValuesOf(h));
  }

  lemma FitsKeys(schema: Schema, m: Values)
    requires Fits(schema, m)
    ensures m.Keys == NamesOf(schema)
  {
  }

  lemma AcceptedIsSpecs(schema: Schema, ps: seq<Pair>, m: Values)
    requires m.Keys == NamesOf(schema)
    ensures Accepts(schema, ps) && HeaderOf(schema, ps, m) <==>
            (forall p | p in ps :: p.key != "error") && forall i | 0 <= i < |schema| :: SpecOk(ps, schema[i], m)
  {
    assert forall i | 0 <= i < |schema| :: schema[i] in schema;
    if forall i | 0 <= i < |schema| :: SpecOk(ps, schema[i], m) {
      forall s | s in schema ensures SpecOk(ps, s, m) {
        var i :| 0 <= i < |schema| && schema[i] == s;
      }
    }
  }

  /** A header's fields are what it was filled from. */
  lemma FieldsFilled(kind: Kind, f: FieldName -> Value)
    requires forall i | 0 <= i < |ShapeOf(kind)| :: f(ShapeOf(kind)[i].field).Flag? == ShapeOf(kind)[i].isBool
    ensures forall i | 0 <= i < |ShapeOf(kind)| ::
              FieldOf(HeaderOfFields(kind, f), ShapeOf(kind)[i].field) == f(ShapeOf(kind)[i].field)
  {
    var shapes, h := ShapeOf(kind), HeaderOfFields(kind, f);
    forall i | 0 <= i < |shapes| ensures FieldOf(h, shapes[i].field) == f(shapes[i].field) {
      assert f(shapes[i].field).Flag? == shapes[i].isBool;
    }
  }

  /** Values that fit are those of the header they make. */
  lemma MadeFrom(kind: Kind, m: Values)
    requires Fits(SchemaOf(kind), m)
    ensures ValuesOf(HeaderFrom(kind, m)) == m
  {
    hide Wire, FieldOf, HeaderOfFields, ShapeOf;
    var shapes, h := ShapeOf(kind), HeaderFrom(kind, m);
    assert KindOf(h) == kind;
    forall i | 0 <= i < |shapes|
      ensures Wire(shapes[i].field) in m && ValueAt(m, shapes[i].field).Flag? == shapes[i].isBool
    {
      assert SchemaOf(kind)[i] in SchemaOf(kind);
    }
    FieldsFilled(kind, field => ValueAt(m, field));
    DistinctFields(kind);
    ValuesFromExact(h, shapes);
    NamesOfExact(SchemaOf(kind));
    forall k | k in m ensures k in ValuesOf(h) && ValuesOf(h)[k] == m[k] {
      var i :| 0 <= i < |shapes| && SchemaOf(kind)[i].name == k;
      assert shapes[i] in shapes;
    }
    assert ValuesOf(h).Keys == m.Keys;
  }

  lemma RequiredGiven(ps: seq<Pair>, field: FieldName, v: string)
    ensures Given(ps, Required(field), Text(v)) <==> Has(ps, Wire(field), v)
  {
    hide Wire;
  }

  lemma DefaultGiven(ps: seq<Pair>, field: FieldName, v: string, default: string)
    ensures Given(ps, DefaultText(field, default), Text(v)) <==> HasOr(ps, Wire(field), v, default)
  {
    hide Wire;
  }

  lemma FlagGiven(ps: seq<Pair>, field: FieldName, b: bool)
    ensures Given(ps, OptionalFlag(field), Flag(b)) <==> HasOr(ps, Wire(field), FlagText(b), "0")
    ensures Given(ps, Shape(field, true, None), Flag(b)) <==> Has(ps, Wire(field), FlagText(b))
  {
    hide Wire;
    assert "0"[0] != "1"[0];
  }

  predicate GivenAt(h: Header, ps: seq<Pair>, i: nat)
    requires i < |ShapeOf(KindOf(h))|
  {
    Given(ps, ShapeOf(KindOf(h))[i], FieldOf(h, ShapeOf(KindOf(h))[i].field))
  }

  lemma TopicGiven(h: Header, ps: seq<Pair>)
    requires h.Publisher? || h.Subscriber?
    ensures Spells(ps, h) <==>
            && GivenAt(h, ps, 0) && GivenAt(h, ps, 1) && GivenAt(h, ps, 2)
            && GivenAt(h, ps, 3) && GivenAt(h, ps, 4) && GivenAt(h, ps, 5)
  {
    hide Given, Has, HasOr;
    DefaultGiven(ps, CallerId, h.callerId, "unknown callerid");
    RequiredGiven(ps, CallerId, h.callerId);
    RequiredGiven(ps, Topic, h.topic);
    RequiredGiven(ps, Md5sum, h.md5sum);
    RequiredGiven(ps, Type, h.msgType);
    DefaultGiven(ps, Definition, h.msgDefinition, "");
    if h.Publisher? {
      FlagGiven(ps, Latching, h.latching);
    } else {
      FlagGiven(ps, Nodelay, h.tcpNodelay);
    }
  }

  lemma ServiceGiven(h: Header, ps: seq<Pair>)
    requires h.ServiceClient? || h.ProbeRequest?
    ensures Spells(ps, h) <==>
            && GivenAt(h, ps, 0) && GivenAt(h, ps, 1) && GivenAt(h, ps, 2) && GivenAt(h, ps, 3)
            && (h.ServiceClient? ==> GivenAt(h, ps, 4))
  {
    hide Given, Has, HasOr;
    DefaultGiven(ps, CallerId, h.callerId, "unknown callerid");
    RequiredGiven(ps, CallerId, h.callerId);
    RequiredGiven(ps, Service, h.service);
    RequiredGiven(ps, Md5sum, h.md5sum);
    if h.ServiceClient? {
      RequiredGiven(ps, Type, h.msgType);
      FlagGiven(ps, Persistent, h.persistent);
    } else {
      FlagGiven(ps, Probe, h.probe);
    }
  }

  lemma ResponseGiven(h: Header, ps: seq<Pair>)
    requires h.ProbeResponse? || h.ServiceServer?
    ensures Spells(ps, h) <==> GivenAt(h, ps, 0) && (h.ProbeResponse? ==> GivenAt(h, ps, 1) && GivenAt(h, ps, 2))
  {
    hide Given, Has, HasOr;
    DefaultGiven(ps, CallerId, h.callerId, "unknown callerid");
    if h.ProbeResponse? {
      RequiredGiven(ps, Md5sum, h.md5sum);
      RequiredGiven(ps, Type, h.msgType);
    }
  }

  lemma SpellsIsGiven(h: Header, ps: seq<Pair>)
    ensures Spells(ps, h) <==> forall i | 0 <= i < |ShapeOf(KindOf(h))| :: GivenAt(h, ps, i)
  {
    hide GivenAt, Spells;
    match h
    case Publisher(_, _, _, _, _, _) => TopicGiven(h, ps);
    case Subscriber(_, _, _, _, _, _) => TopicGiven(h, ps);
    case ServiceClient(_, _, _, _, _) => ServiceGiven(h, ps);
    case ProbeRequest(_, _, _, _) => ServiceGiven(h, ps);
    case ProbeResponse(_, _, _) => ResponseGiven(h, ps);
    case ServiceServer(_) => ResponseGiven(h, ps);
  }

  /** Whatever bytes a peer sends: if they are laid out as fields, they are read as a header of a kind
      exactly if no key is "error" and the fields spell that header - the keys of the kind at most once, the
      required ones once, bools "0" or "1", and what is absent has the default written out above. */
  lemma FromWireExact(kind: Kind, b: bytes, ps: seq<Pair>, stray: bytes, h: Header)
    requires Layout(b, ps, stray)
    ensures FromWire(kind, b) == Ok(h) <==> KindOf(h) == kind && (forall p | p in ps :: p.key != "error") && Spells(ps, h)
  {
    hide Accepts, HeaderOf, ValuesOf, Spells, Given, ShapeOf, SchemaOf, HeaderFrom, Fits;
    SchemasOk(kind);
    if KindOf(h) == kind {
      SpellsIsGiven(h, ps);
      AllGivenExact(h, ps);
      DecodeExact(SchemaOf(kind), b, ps, stray, ValuesOf(h));
      ValuesFit(h);
    }
    if FromWire(kind, b) == Ok(h) {
      DecodedFits(SchemaOf(kind), b);
      MadeFrom(kind, Decode(SchemaOf(kind), b).value);
      assert KindOf(h) == kind by { MadeKind(kind, Decode(SchemaOf(kind), b).value); }
    }
  }

  lemma MadeKind(kind: Kind, m: Values)
    ensures KindOf(HeaderFrom(kind, m)) == kind
  {
  }
}
