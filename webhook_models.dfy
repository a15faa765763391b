/** The stored webhook configuration (`HTTPRequest`) and its create response. */
module WebhookModels {
  import opened Wrappers

  /** The `event` Literal as written: the last two names are adjacent string literals with no
      comma between them, which Python joins into a single literal. */
  const EventLiteralsAsWritten: set<string> :=
    {"pending.new", "pending.accepted", "pending.denied" + "connection.revoked"}

  predicate IsEventAsWritten(s: string) {
    s in EventLiteralsAsWritten
  }

  /** As written, a config for "pending.denied" or "connection.revoked" fails validation,
      while the joined name is accepted. */
  lemma DeniedAndRevokedRejectedAsWritten()
    ensures !IsEventAsWritten("pending.denied") && !IsEventAsWritten("connection.revoked")
    ensures IsEventAsWritten("pending.deniedconnection.revoked")
    ensures |EventLiteralsAsWritten| == 3
  {
    assert "pending.denied" + "connection.revoked" == "pending.deniedconnection.revoked";
  }

  /** The four lifecycle events a webhook can be configured for. */
  datatype Event = PendingNew | PendingAccepted | PendingDenied | ConnectionRevoked

  function EventName(e: Event): string {
    match e
    case PendingNew => "pending.new"
    case PendingAccepted => "pending.accepted"
    case PendingDenied => "pending.denied"
    case ConnectionRevoked => "connection.revoked"
  }

  /** Validation of the event name against the four intended literals. */
  function ParseEvent(s: string): (r: Option<Event>)
    ensures r.Some? ==> EventName(r.value) == s
    ensures r.None? <==> forall e: Event :: EventName(e) != s
  {
    if s == "pending.new" then Some(PendingNew)
    else if s == "pending.accepted" then Some(PendingAccepted)
    else if s == "pending.denied" then Some(PendingDenied)
    else if s == "connection.revoked" then Some(ConnectionRevoked)
    else None
  }

  lemma EventRoundTrip(e: Event)
    ensures ParseEvent(EventName(e)) == Some(e)
  {
  }

  /** `Literal["GET", "HEAD", "POST", "PUT", "DELETE"]` */
  datatype HttpMethod = Get | Head | Post | Put | Delete

  function MethodName(m: HttpMethod): string {
    match m
    case Get => "GET"
    case Head => "HEAD"
    case Post => "POST"
    case Put => "PUT"
    case Delete => "DELETE"
  }

  function ParseMethod(s: string): (r: Option<HttpMethod>)
    ensures r.Some? ==> MethodName(r.value) == s
    ensures r.None? <==> forall m: HttpMethod :: MethodName(m) != s
  {
    if s == "GET" then Some(Get)
    else if s == "HEAD" then Some(Head)
    else if s == "POST" then Some(Post)
    else if s == "PUT" then Some(Put)
    else if s == "DELETE" then Some(Delete)
    else None
  }

  lemma MethodRoundTrip(m: HttpMethod)
    ensures ParseMethod(MethodName(m)) == Some(m)
  {
  }

  /** A string-keyed JSON object; each value is kept as its JSON text. */
  type Fields = map<string, string>

  /** A webhook configuration: the url is required, every other part optional. */
  datatype HTTPRequest = HTTPRequest(
    event: Event,
    contact: Option<Fields>,
    httpMethod: HttpMethod,
    url: string,
    headers: Option<Fields>,
    queryParams: Option<Fields>,
    pathParams: Option<Fields>,
    cookies: Option<Fields>,
    body: Option<string>,
    formData: Option<Fields>,
    clientIp: Option<string>)

  function EventOf(w: HTTPRequest): Event { w.event }

  const CreatedMessage := "The webhook has been successfully created!"

  /** `CreateWebhookResponseModel`: the request's fields plus the fixed message. */
  datatype CreateWebhookResponse = CreateWebhookResponse(request: HTTPRequest, message: string)

  /** A modify body: the event names the config; a None field was sent as null or left out. */
  datatype WebhookUpdate = WebhookUpdate(
    event: Event,
    httpMethod: Option<HttpMethod>,
    url: Option<string>,
    headers: Option<Fields>,
    queryParams: Option<Fields>,
    cookies: Option<Fields>,
    body: Option<string>)

  function Pick<T>(given: Option<T>, stored: T): T {
    match given
    case Some(v) => v
    case None => stored
  }

  /** `$set` of `model_dump(exclude={"event"}, exclude_none=True)`: every non-null field replaces the
      stored one; the event and the fields the update cannot name are kept. */
  function ApplyUpdate(w: HTTPRequest, u: WebhookUpdate): (r: HTTPRequest)
    ensures r.event == w.event
    ensures r.httpMethod == (if u.httpMethod.Some? then u.httpMethod.value else w.httpMethod)
    ensures r.url == (if u.url.Some? then u.url.value else w.url)
    ensures u.headers.Some? ==> r.headers == u.headers
    ensures u.headers.None? ==> r.headers == w.headers
    ensures u.queryParams.Some? ==> r.queryParams == u.queryParams
    ensures u.queryParams.None? ==> r.queryParams == w.queryParams
    ensures u.cookies.Some? ==> r.cookies == u.cookies
    ensures u.cookies.None? ==> r.cookies == w.cookies
    ensures u.body.Some? ==> r.body == u.body
    ensures u.body.None? ==> r.body == w.body
    ensures r.contact == w.contact && r.pathParams == w.pathParams
    ensures r.formData == w.formData && r.clientIp == w.clientIp
  {
    w.(httpMethod := Pick(u.httpMethod, w.httpMethod),
       url := Pick(u.url, w.url),
       headers := if u.headers.Some? then u.headers else w.headers,
       queryParams := if u.queryParams.Some? then u.queryParams else w.queryParams,
       cookies := if u.cookies.Some? then u.cookies else w.cookies,
       body := if u.body.Some? then u.body else w.body)
  }

  /** Sending the same update twice has the effect of sending it once. */
  lemma ApplyUpdateIdempotent(w: HTTPRequest, u: WebhookUpdate)
    ensures ApplyUpdate(ApplyUpdate(w, u), u) == ApplyUpdate(w, u)
  {
  }

  /** An update whose fields are all null leaves the config as it was. */
  lemma EmptyUpdateKeepsConfig(w: HTTPRequest)
    ensures ApplyUpdate(w, WebhookUpdate(w.event, None, None, None, None, None, None)) == w
  {
  }
}
