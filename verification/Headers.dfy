/** The six connection headers, and the handshakes they are exchanged in. */
module Headers {
  import opened Wrappers
  import opened Bytes
  import opened HeaderCodec

  datatype Header =
    | Publisher(callerId: string, topic: string, md5sum: string, msgType: string, msgDefinition: string, latching: bool)
    | Subscriber(callerId: string, topic: string, md5sum: string, msgType: string, msgDefinition: string, tcpNodelay: bool)
    | ServiceClient(callerId: string, service: string, md5sum: string, msgType: string, persistent: bool)
    | ProbeRequest(callerId: string, service: string, md5sum: string, probe: bool)
    | ProbeResponse(callerId: string, md5sum: string, msgType: string)
    | ServiceServer(callerId: string)

  datatype Kind =
    | PublisherKind | SubscriberKind | ServiceClientKind | ProbeRequestKind | ProbeResponseKind | ServiceServerKind

  function KindOf(h: Header): Kind {
    match h
    case Publisher(_, _, _, _, _, _) => PublisherKind
    case Subscriber(_, _, _, _, _, _) => SubscriberKind
    case ServiceClient(_, _, _, _, _) => ServiceClientKind
    case ProbeRequest(_, _, _, _) => ProbeRequestKind
    case ProbeResponse(_, _, _) => ProbeResponseKind
    case ServiceServer(_) => ServiceServerKind
  }

  // ---------------------------------------------------------------- Schemas

  datatype FieldName = CallerId | Topic | Md5sum | Type | Definition | Latching | Nodelay | Service | Persistent | Probe

  /** The serde names of the fields. */
  function Wire(n: FieldName): (s: string)
    ensures '=' !in s && s != ERROR_FIELD
  {
    match n
    case CallerId => "callerid"
    case Topic => "topic"
    case Md5sum => "md5sum"
    case Type => "type"
    case Definition => "message_definition"
    case Latching => "latching"
    case Nodelay => "tcp_nodelay"
    case Service => "service"
    case Persistent => "persistent"
    case Probe => "probe"
  }

  /** No two fields share a name: where two names have one length, they begin differently. */
  lemma WireInjective(a: FieldName, b: FieldName)
    ensures Wire(a) == Wire(b) ==> a == b
  {
    if a != b && |Wire(a)| == |Wire(b)| {
      assert Wire(a)[0] != Wire(b)[0];
    }
  }

  datatype Shape = Shape(field: FieldName, isBool: bool, default: Option<Value>)

  function Required(field: FieldName): Shape {
    Shape(field, false, None)
  }

  function DefaultText(field: FieldName, text: string): Shape {
    Shape(field, false, Some(Text(text)))
  }

  function OptionalFlag(field: FieldName): Shape {
    Shape(field, true, Some(Flag(false)))
  }

  const ANONYMOUS := "unknown callerid"

  /** The fields of each header type in declaration order. */
  function ShapeOf(kind: Kind): seq<Shape> {
    match kind
    case PublisherKind =>
      [DefaultText(CallerId, ANONYMOUS), Required(Topic), Required(Md5sum), Required(Type),
       DefaultText(Definition, ""), OptionalFlag(Latching)]
    case SubscriberKind =>
      [Required(CallerId), Required(Topic), Required(Md5sum), Required(Type),
       DefaultText(Definition, ""), OptionalFlag(Nodelay)]
    case ServiceClientKind =>
      [DefaultText(CallerId, ANONYMOUS), Required(Service), Required(Md5sum), Required(Type), OptionalFlag(Persistent)]
    case ProbeRequestKind =>
      [Required(CallerId), Required(Service), Required(Md5sum), Shape(Probe, true, None)]
    case ProbeResponseKind =>
      [DefaultText(CallerId, ANONYMOUS), Required(Md5sum), Required(Type)]
    case ServiceServerKind =>
      [DefaultText(CallerId, ANONYMOUS)]
  }

  function SchemaFrom(shapes: seq<Shape>): Schema {
    seq(|shapes|, i requires 0 <= i < |shapes| => Spec(Wire(shapes[i].field), shapes[i].isBool, shapes[i].default))
  }

  function SchemaOf(kind: Kind): Schema {
    SchemaFrom(ShapeOf(kind))
  }

  /** What a header holds in a field; fields it does not have are empty. */
  function FieldOf(h: Header, field: FieldName): Value {
    match field
    case CallerId => Text(h.callerId)
    case Topic => if h.Publisher? || h.Subscriber? then Text(h.topic) else Text("")
    case Md5sum => if h.ServiceServer? then Text("") else Text(h.md5sum)
    case Type => if h.ProbeRequest? || h.ServiceServer? then Text("") else Text(h.msgType)
    case Definition => if h.Publisher? || h.Subscriber? then Text(h.msgDefinition) else Text("")
    case Latching => Flag(h.Publisher? && h.latching)
    case Nodelay => Flag(h.Subscriber? && h.tcpNodelay)
    case Service => if h.ServiceClient? || h.ProbeRequest? then Text(h.service) else Text("")
    case Persistent => Flag(h.ServiceClient? && h.persistent)
    case Probe => Flag(h.ProbeRequest? && h.probe)
  }

  /** The header as the codec sees it. */
  function ValuesOf(h: Header): Values {
    ValuesFrom(h, ShapeOf(KindOf(h)))
  }

  function ValuesFrom(h: Header, shapes: seq<Shape>): Values {
    if shapes == [] then map[]
    else ValuesFrom(h, shapes[1..])[Wire(shapes[0].field) := FieldOf(h, shapes[0].field)]
  }

  function ValueAt(m: Values, field: FieldName): Value {
    if Wire(field) in m then m[Wire(field)] else Text("")
  }

  function TextOf(v: Value): string {
    if v.Text? then v.s else ""
  }

  /** The struct of a kind, each field filled from `f`. */
  function HeaderOfFields(kind: Kind, f: FieldName -> Value): (h: Header)
    ensures KindOf(h) == kind
  {
    var text := (n: FieldName) => TextOf(f(n));
    var flag := (n: FieldName) => f(n) == Flag(true);
    match kind
    case PublisherKind =>
      Publisher(text(CallerId), text(Topic), text(Md5sum), text(Type), text(Definition), flag(Latching))
    case SubscriberKind =>
      Subscriber(text(CallerId), text(Topic), text(Md5sum), text(Type), text(Definition), flag(Nodelay))
    case ServiceClientKind =>
      ServiceClient(text(CallerId), text(Service), text(Md5sum), text(Type), flag(Persistent))
    case ProbeRequestKind =>
      ProbeRequest(text(CallerId), text(Service), text(Md5sum), flag(Probe))
    case ProbeResponseKind =>
      ProbeResponse(text(CallerId), text(Md5sum), text(Type))
    case ServiceServerKind =>
      ServiceServer(text(CallerId))
  }

  function HeaderFrom(kind: Kind, m: Values): Header {
    HeaderOfFields(kind, field => ValueAt(m, field))
  }

  // ---------------------------------------------------------------- The codec at these types

  predicate Distinct(shapes: seq<Shape>) {
    forall i, j | 0 <= i < j < |shapes| :: shapes[i].field != shapes[j].field
  }

  /** Two fields of one header never share a wire name. */
  lemma SchemaIsOk(shapes: seq<Shape>)
    requires Distinct(shapes)
    requires forall s | s in shapes && s.default.Some? :: s.default.value.Flag? == s.isBool
    ensures SchemaOk(SchemaFrom(shapes)) && DefaultsOk(SchemaFrom(shapes))
  {
    hide Wire;
    var schema := SchemaFrom(shapes);
    forall i, j | 0 <= i < j < |shapes| ensures schema[i].name != schema[j].name {
      WireInjective(shapes[i].field, shapes[j].field);
    }
  }

  lemma SchemasOk(kind: Kind)
    ensures SchemaOk(SchemaOf(kind)) && DefaultsOk(SchemaOf(kind))
  {
    DistinctFields(kind);
    SchemaIsOk(ShapeOf(kind));
  }

  lemma {:induction false} ValuesFromExact(h: Header, shapes: seq<Shape>)
    requires Distinct(shapes)
    ensures ValuesFrom(h, shapes).Keys == NamesOf(SchemaFrom(shapes))
    ensures forall s | s in shapes ::
              Wire(s.field) in ValuesFrom(h, shapes) && ValuesFrom(h, shapes)[Wire(s.field)] == FieldOf(h, s.field)
  {
    hide Wire;
    if shapes != [] {
      ValuesFromExact(h, shapes[1..]);
      assert SchemaFrom(shapes)[1..] == SchemaFrom(shapes[1..]);
      forall s | s in shapes
        ensures Wire(s.field) in ValuesFrom(h, shapes) && ValuesFrom(h, shapes)[Wire(s.field)] == FieldOf(h, s.field)
      {
        var i :| 0 <= i < |shapes| && shapes[i] == s;
        if i > 0 {
          assert s in shapes[1..];
          WireInjective(s.field, shapes[0].field);
        }
      }
    }
  }

  lemma ValuesFromFit(h: Header, shapes: seq<Shape>)
    requires Distinct(shapes)
    requires forall s | s in shapes :: FieldOf(h, s.field).Flag? == s.isBool
    ensures Fits(SchemaFrom(shapes), ValuesFrom(h, shapes))
  {
    ValuesFromExact(h, shapes);
    var schema := SchemaFrom(shapes);
    forall s | s in schema ensures s.name in ValuesFrom(h, shapes) && ValuesFrom(h, shapes)[s.name].Flag? == s.isBool {
      var i :| 0 <= i < |shapes| && schema[i] == s;
      assert shapes[i] in shapes;
    }
  }

  lemma FieldsDetermine(h: Header, f: FieldName -> Value)
    requires forall i | 0 <= i < |ShapeOf(KindOf(h))| ::
               f(ShapeOf(KindOf(h))[i].field) == FieldOf(h, ShapeOf(KindOf(h))[i].field)
    ensures HeaderOfFields(KindOf(h), f) == h
  {
    var shapes := ShapeOf(KindOf(h));
    assert f(shapes[0].field) == FieldOf(h, shapes[0].field);
    if !h.ServiceServer? {
      assert f(shapes[1].field) == FieldOf(h, shapes[1].field) && f(shapes[2].field) == FieldOf(h, shapes[2].field);
    }
    if !h.ServiceServer? && !h.ProbeResponse? {
      assert f(shapes[3].field) == FieldOf(h, shapes[3].field);
    }
    if h.Publisher? || h.Subscriber? {
      assert f(shapes[4].field) == FieldOf(h, shapes[4].field) && f(shapes[5].field) == FieldOf(h, shapes[5].field);
    } else if h.ServiceClient? {
      assert f(shapes[4].field) == FieldOf(h, shapes[4].field);
    }
  }

  /** A header and its field values determine each other. */
  lemma ValuesFit(h: Header)
    ensures Fits(SchemaOf(KindOf(h)), ValuesOf(h))
    ensures HeaderFrom(KindOf(h), ValuesOf(h)) == h
  {
    var shapes := ShapeOf(KindOf(h));
    DistinctFields(KindOf(h));
    KindsAgree(h);
    ValuesFromFit(h, shapes);
    ValuesAtShapes(h, shapes);
    FieldsDetermine(h, field => ValueAt(ValuesOf(h), field));
  }

  lemma DistinctFields(kind: Kind)
    ensures Distinct(ShapeOf(kind))
  {
  }

  lemma KindsAgree(h: Header)
    ensures forall s | s in ShapeOf(KindOf(h)) :: FieldOf(h, s.field).Flag? == s.isBool
  {
  }

  lemma ValuesAtShapes(h: Header, shapes: seq<Shape>)
    requires Distinct(shapes)
    ensures forall i | 0 <= i < |shapes| :: ValueAt(ValuesFrom(h, shapes), shapes[i].field) == FieldOf(h, shapes[i].field)
  {
    ValuesFromExact(h, shapes);
    forall i | 0 <= i < |shapes| ensures ValueAt(ValuesFrom(h, shapes), shapes[i].field) == FieldOf(h, shapes[i].field) {
      assert shapes[i] in shapes;
    }
  }

  /** `to_bytes` of a typed header. */
  function Encoded(h: Header): bytes
    requires Fits(SchemaOf(KindOf(h)), ValuesOf(h))
  {
    Encode(SchemaOf(KindOf(h)), ValuesOf(h))
  }

  function ToWire(h: Header): bytes {
    ValuesFit(h);
    Encoded(h)
  }

  /** `from_bytes` at a header type. */
  function FromWire(kind: Kind, b: bytes): Result<Header, HeaderError> {
    match Decode(SchemaOf(kind), b)
    case Ok(m) => Ok(HeaderFrom(kind, m))
    case Err(e) => Err(e)
  }

  /** The encoding of this header has a length that its 32-bit prefix can hold. */
  predicate Short(h: Header) {
    |ToWire(h)| - 4 < U32_MODULUS
  }

  /** For each of the six types: decoding an encoded header gives it back when its length fits 32 bits,
      and is refused for the length when it does not. */
  lemma HeaderRoundTrip(h: Header)
    ensures FromWire(KindOf(h), ToWire(h)) ==
            if Short(h) then Ok(h)
            else Err(InvalidLength((|ToWire(h)| - 4) % U32_MODULUS, |ToWire(h)| - 4))
  {
    ValuesFit(h);
    SchemasOk(KindOf(h));
    RoundTrip(SchemaOf(KindOf(h)), ValuesOf(h));
  }

  /** On a stream: reading one frame from an encoded header and whatever follows yields exactly the
      header, and leaves exactly what follows. */
  lemma HeaderInStream(h: Header, rest: bytes)
    requires Short(h)
    ensures ReadFrame(ToWire(h) + rest) == Frame(ToWire(h), rest)
    ensures FromWire(KindOf(h), ToWire(h)) == Ok(h)
  {
    HeaderRoundTrip(h);
    ValuesFit(h);
    SchemasOk(KindOf(h));
    RoundTripInStream(SchemaOf(KindOf(h)), ValuesOf(h), rest);
  }
}
