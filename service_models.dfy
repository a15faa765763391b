/** The service catalogue's record shapes (`ServiceResponseModel`, `ServiceItem`). */
module ServiceModels {
  import opened Wrappers

  /** `Literal["http", "https"]` */
  datatype Protocol = Http | Https

  function ProtocolName(p: Protocol): string {
    match p
    case Http => "http"
    case Https => "https"
  }

  /** Validation of the protocol literal: only the two listed strings are accepted. */
  function ParseProtocol(s: string): (r: Option<Protocol>)
    ensures r.Some? <==> s == "http" || s == "https"
    ensures r.Some? ==> ProtocolName(r.value) == s
  {
    if s == "http" then Some(Http)
    else if s == "https" then Some(Https)
    else None
  }

  lemma ProtocolRoundTrip(p: Protocol)
    ensures ParseProtocol(ProtocolName(p)) == Some(p)
  {
  }

  const MaxFieldLength := 200
  const DefaultInternalAddress := "127.0.0.1"
  const DefaultPort := 80
  const DefaultProtocol := Http

  /** A catalogue entry. The internal address is an opaque string. */
  datatype ServiceResponse = ServiceResponse(
    name: string,
    description: Option<string>,
    internalAddress: string,
    port: int,
    protocol: Protocol)

  /** The length limits of `ServiceResponseModel`. */
  predicate ValidService(s: ServiceResponse) {
    && |s.name| <= MaxFieldLength
    && (s.description.Some? ==> |s.description.value| <= MaxFieldLength)
  }

  /** A service body as sent, where None marks a field left out of the JSON. */
  datatype ServicePayload = ServicePayload(
    name: string,
    description: Option<string>,
    internalAddress: Option<string>,
    port: Option<int>,
    protocol: Option<Protocol>)

  /** Parsing a body into `ServiceResponseModel`: a field left out takes its declared default. */
  function WithDefaults(p: ServicePayload): (s: ServiceResponse)
    ensures s.name == p.name && s.description == p.description
    ensures s.internalAddress == (if p.internalAddress.Some? then p.internalAddress.value else "127.0.0.1")
    ensures s.port == (if p.port.Some? then p.port.value else 80)
    ensures s.protocol == (if p.protocol.Some? then p.protocol.value else Http)
  {
    ServiceResponse(
      p.name,
      p.description,
      match p.internalAddress case Some(a) => a case None => DefaultInternalAddress,
      match p.port case Some(n) => n case None => DefaultPort,
      match p.protocol case Some(q) => q case None => DefaultProtocol)
  }

  /** A payload with only a name takes every default, and is a valid service when the name fits. */
  lemma MinimalPayloadTakesDefaults(name: string)
    ensures WithDefaults(ServicePayload(name, None, None, None, None))
         == ServiceResponse(name, None, "127.0.0.1", 80, Http)
    ensures |name| <= MaxFieldLength <==> ValidService(WithDefaults(ServicePayload(name, None, None, None, None)))
  {
  }

  /** A requested service: a name and an optional expiry (applied in hours when the request is accepted). */
  datatype ServiceItem = ServiceItem(name: string, expiry: Option<int>)

  function NameOf(s: ServiceResponse): string { s.name }
}
