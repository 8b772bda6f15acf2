/** Who accepts whom: the compatibility checks on both ends of a connection, and how a server tells
    a client's handshake from a probe. */
module Handshake {
  import opened Wrappers
  import opened Bytes
  import opened HeaderCodec
  import opened Headers

  const WILDCARD := "*"

  datatype Mismatch = Md5Mismatch(expected: string, actual: string) | TypeMismatch(expected: string, actual: string)

  datatype ServiceSpec = ServiceSpec(name: string, md5sum: string, msgType: string)

  predicate AreFieldsCompatible(lhs: string, rhs: string) {
    lhs == rhs || lhs == WILDCARD || rhs == WILDCARD
  }

  /** The shape the three validation functions share. */
  function Validate(md5: string, msgType: string, otherMd5: string, otherType: string): Result<(), Mismatch> {
    if !AreFieldsCompatible(md5, otherMd5) then Err(Md5Mismatch(md5, otherMd5))
    else if !AreFieldsCompatible(msgType, otherType) then Err(TypeMismatch(msgType, otherType))
    else Ok(())
  }

  /** What a check says, spelled out: both fields equal or a "*" on either side; otherwise the first that
      is not, with the expected value first. */
  lemma ValidateExact(md5: string, msgType: string, otherMd5: string, otherType: string)
    ensures var md5Ok := md5 == otherMd5 || md5 == "*" || otherMd5 == "*";
            var typeOk := msgType == otherType || msgType == "*" || otherType == "*";
            Validate(md5, msgType, otherMd5, otherType) ==
              if md5Ok && typeOk then Ok(())
              else if md5Ok then Err(TypeMismatch(msgType, otherType))
              else Err(Md5Mismatch(md5, otherMd5))
  {
  }

  function ValidatePubSub(publisher: Header, subscriber: Header): Result<(), Mismatch>
    requires publisher.Publisher? && subscriber.Subscriber?
  {
    Validate(publisher.md5sum, publisher.msgType, subscriber.md5sum, subscriber.msgType)
  }

  function ValidateServer(service: ServiceSpec, response: Header): Result<(), Mismatch>
    requires response.ProbeResponse?
  {
    Validate(service.md5sum, service.msgType, response.md5sum, response.msgType)
  }

  function ValidateClient(service: ServiceSpec, client: Header): Result<(), Mismatch>
    requires client.ServiceClient?
  {
    Validate(service.md5sum, service.msgType, client.md5sum, client.msgType)
  }

  /** What `setup_connection` concludes from the bytes a subscriber sent. */
  function PublisherVerdict(own: Header, received: bytes): Option<Result<(), Mismatch>>
    requires own.Publisher?
  {
    match FromWire(SubscriberKind, received)
    case Ok(s) => FromWireKind(SubscriberKind, received); Some(ValidatePubSub(own, s))
    case Err(_) => None
  }

  /** What `add_publisher` concludes from the bytes a publisher sent. */
  function SubscriberVerdict(own: Header, received: bytes): Option<Result<(), Mismatch>>
    requires own.Subscriber?
  {
    match FromWire(PublisherKind, received)
    case Ok(p) => FromWireKind(PublisherKind, received); Some(ValidatePubSub(p, own))
    case Err(_) => None
  }

  lemma FromWireKind(kind: Kind, b: bytes)
    ensures FromWire(kind, b).Ok? ==> KindOf(FromWire(kind, b).value) == kind
  {
  }

  datatype RequestKind = ProbeCheck(header: Header) | ClientHandshake(header: Header) | UnknownRequest

  /** `handle_request`: a client header if the bytes read as one, otherwise a probe, otherwise an error. */
  function Classify(b: bytes): RequestKind {
    match FromWire(ServiceClientKind, b)
    case Ok(client) => ClientHandshake(client)
    case Err(_) =>
      match FromWire(ProbeRequestKind, b)
      case Ok(probe) => ProbeCheck(probe)
      case Err(_) => UnknownRequest
  }

  /** Publisher and subscriber, each judging the other's header as it arrives on the wire, agree. */
  lemma PubSubAgreement(p: Header, s: Header)
    requires p.Publisher? && s.Subscriber? && Short(p) && Short(s)
    ensures PublisherVerdict(p, ToWire(s)) == SubscriberVerdict(s, ToWire(p)) == Some(ValidatePubSub(p, s))
    ensures ValidatePubSub(p, s).Ok? <==>
            && (p.md5sum == s.md5sum || p.md5sum == "*" || s.md5sum == "*")
            && (p.msgType == s.msgType || p.msgType == "*" || s.msgType == "*")
    ensures ValidatePubSub(p, s).Err? ==>
              || ValidatePubSub(p, s) == Err(Md5Mismatch(p.md5sum, s.md5sum))
              || ValidatePubSub(p, s) == Err(TypeMismatch(p.msgType, s.msgType))
  {
    HeaderRoundTrip(p);
    HeaderRoundTrip(s);
  }

  /** The client's check of the probe response and the server's check of the client header accept
      the same pairs of services. */
  lemma ProbeAgreement(client: ServiceSpec, server: ServiceSpec, clientId: string, serverId: string, persistent: bool)
    requires Short(ProbeResponse(serverId, server.md5sum, server.msgType))
    requires Short(ServiceClient(clientId, client.name, client.md5sum, client.msgType, persistent))
    ensures var response := FromWire(ProbeResponseKind, ToWire(ProbeResponse(serverId, server.md5sum, server.msgType)));
            var handshake := FromWire(ServiceClientKind,
              ToWire(ServiceClient(clientId, client.name, client.md5sum, client.msgType, persistent)));
            && response.Ok? && response.value.ProbeResponse? && handshake.Ok? && handshake.value.ServiceClient?
            && (ValidateServer(client, response.value).Ok? <==> ValidateClient(server, handshake.value).Ok?)
            && (ValidateServer(client, response.value) == Err(Md5Mismatch(client.md5sum, server.md5sum)) <==>
                ValidateClient(server, handshake.value) == Err(Md5Mismatch(server.md5sum, client.md5sum)))
  {
    hide FromWire, ToWire;
    HeaderRoundTrip(ProbeResponse(serverId, server.md5sum, server.msgType));
    HeaderRoundTrip(ServiceClient(clientId, client.name, client.md5sum, client.msgType, persistent));
  }

  /** A probe request is taken for a probe exactly when its fields would not also do as a client header. */
  lemma ProbeClassified(b: bytes, ps: seq<Pair>, stray: bytes)
    requires Layout(b, ps, stray) && Accepts(SchemaOf(ProbeRequestKind), ps)
    ensures Classify(b).ProbeCheck? <==> !Accepts(SchemaOf(ServiceClientKind), ps)
    ensures Classify(b).ClientHandshake? <==> Accepts(SchemaOf(ServiceClientKind), ps)
  {
    SchemasOk(ServiceClientKind);
    SchemasOk(ProbeRequestKind);
    AcceptanceExact(SchemaOf(ProbeRequestKind), b);
    AcceptanceExact(SchemaOf(ServiceClientKind), b);
    if qs, st :| Layout(b, qs, st) && Accepts(SchemaOf(ServiceClientKind), qs) {
      LayoutUnique(b, ps, stray, qs, st);
    }
  }

  lemma WireAbsent(shapes: seq<Shape>, field: FieldName)
    requires forall i | 0 <= i < |shapes| :: shapes[i].field != field
    ensures Wire(field) !in NamesOf(SchemaFrom(shapes))
  {
    var schema := SchemaFrom(shapes);
    NamesOfExact(schema);
    forall n | n in NamesOf(schema) ensures n != Wire(field) {
      var i :| 0 <= i < |schema| && schema[i].name == n;
      WireInjective(shapes[i].field, field);
    }
  }

  lemma MissingRequired(shapes: seq<Shape>, k: nat, ps: seq<Pair>)
    requires k < |shapes| && shapes[k].default.None?
    requires Occurrences(ps, Wire(shapes[k].field)) == 0
    ensures !Accepts(SchemaFrom(shapes), ps)
  {
    assert SchemaFrom(shapes)[k] in SchemaFrom(shapes);
  }

  /** A client header needs a `type` field, which the fields of an encoded probe request do not include. */
  lemma EncodedProbeIsNoClient(probe: Header)
    requires probe.ProbeRequest?
    ensures Fits(SchemaOf(ProbeRequestKind), ValuesOf(probe))
    ensures !Accepts(SchemaOf(ServiceClientKind), PairsOf(SchemaOf(ProbeRequestKind), ValuesOf(probe)))
  {
    hide Wire, Accepts, PairsOf, NamesOf, ValuesOf, FieldOf, Fits, Occurrences, SchemaFrom;
    ValuesFit(probe);
    SchemasOk(ProbeRequestKind);
    PairsOfSpell(SchemaOf(ProbeRequestKind), ValuesOf(probe));
    WireAbsent(ShapeOf(ProbeRequestKind), Type);
    MissingRequired(ShapeOf(ServiceClientKind), 3, PairsOf(SchemaOf(ProbeRequestKind), ValuesOf(probe)));
  }

  lemma EncodedProbeLayout(probe: Header)
    requires probe.ProbeRequest? && Short(probe)
    ensures Fits(SchemaOf(ProbeRequestKind), ValuesOf(probe))
    ensures Layout(ToWire(probe), PairsOf(SchemaOf(ProbeRequestKind), ValuesOf(probe)), [])
    ensures Accepts(SchemaOf(ProbeRequestKind), PairsOf(SchemaOf(ProbeRequestKind), ValuesOf(probe)))
  {
    hide SchemaOf, ValuesOf;
    SchemasOk(ProbeRequestKind);
    ValuesFit(probe);
    PairsOfAccepted(SchemaOf(ProbeRequestKind), ValuesOf(probe));
    EncodingLayout(SchemaOf(ProbeRequestKind), ValuesOf(probe));
  }

  /** Every client header is served as a handshake and every probe header as a probe. */
  lemma EncodedRequestsClassified(client: Header, probe: Header)
    requires client.ServiceClient? && probe.ProbeRequest? && Short(client) && Short(probe)
    ensures Classify(ToWire(client)) == ClientHandshake(client)
    ensures Classify(ToWire(probe)) == ProbeCheck(probe)
  {
    hide FromWire, ToWire, SchemaOf, ValuesOf, Accepts, Layout;
    HeaderRoundTrip(client);
    HeaderRoundTrip(probe);
    EncodedProbeLayout(probe);
    EncodedProbeIsNoClient(probe);
    ProbeClassified(ToWire(probe), PairsOf(SchemaOf(ProbeRequestKind), ValuesOf(probe)), []);
  }
}
