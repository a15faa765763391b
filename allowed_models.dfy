/** Record shapes of granted and denied connections. */
module AllowedModels {
  import opened Wrappers
  import V = Validators

  /** A granted connection; `expireAt` is in seconds since the epoch, None for permanent access. */
  datatype AllowedConnection = AllowedConnection(
    id: Option<string>,
    ipAddress: string,
    serviceName: string,
    expireAt: Option<int>)

  /** A denied connection; it has no expiry. */
  datatype DeniedConnection = DeniedConnection(
    id: Option<string>,
    ipAddress: string,
    serviceName: string)

  datatype DeniedSuccessResponse = DeniedSuccessResponse(
    message: string,
    ipAddress: string,
    serviceName: string,
    ignore: bool)

  const MaxMessageLength := 100

  predicate ValidDeniedResponse(r: DeniedSuccessResponse) {
    |r.message| <= MaxMessageLength
  }

  /** Building `DeniedConnectionModel(**kwargs)`: the `id` field has the alias "_id" and the model
      does not populate fields by name, so only the "_id" key fills it; any other key is dropped. */
  function DeniedFromKeywords(kwargs: map<string, string>): (d: Option<DeniedConnection>)
    ensures d.Some? <==> "ip_address" in kwargs && "service_name" in kwargs
    ensures d.Some? ==> d.value.id == (if "_id" in kwargs then Some(kwargs["_id"]) else None)
    ensures d.Some? ==> d.value.ipAddress == kwargs["ip_address"] && d.value.serviceName == kwargs["service_name"]
  {
    if "ip_address" in kwargs && "service_name" in kwargs then
      Some(DeniedConnection(
        if "_id" in kwargs then Some(kwargs["_id"]) else None,
        kwargs["ip_address"],
        kwargs["service_name"]))
    else None
  }

  /** The store's deny passes the connection id under the keyword `id`, so the record loses it. */
  lemma DenyDropsIdAsWritten(connectionId: string, ipAddress: string, serviceName: string)
    ensures DeniedFromKeywords(map["id" := connectionId, "ip_address" := ipAddress, "service_name" := serviceName])
         == Some(DeniedConnection(None, ipAddress, serviceName))
  {
    var kwargs := map["id" := connectionId, "ip_address" := ipAddress, "service_name" := serviceName];
    assert "_id" !in kwargs;
  }

  /** An `_id` value as it reaches a response model: the driver's `ObjectId`, or a string. */
  datatype RawId = ObjectIdValue(bytes: seq<V.byte>) | TextId(text: string)

  /** Validating the `id` field of `AllowedConnectionModel` or `DeniedConnectionModel`, typed
      `Optional[MongoID]`: a string goes through the id validator, while an `ObjectId` is not a
      string at all and the response fails validation (500). */
  function ResponseId(raw: Option<RawId>): (r: Result<Option<string>>)
    ensures raw.None? ==> r == Ok(None)
    ensures raw.Some? && raw.value.ObjectIdValue? ==> r == Err(InternalError)
    ensures raw.Some? && raw.value.TextId? ==>
      (r.Ok? <==> V.IsObjectId(raw.value.text)) && (r.Ok? ==> r.value == Some(raw.value.text))
  {
    match raw
    case None => Ok(None)
    case Some(ObjectIdValue(_)) => Err(InternalError)
    case Some(TextId(t)) =>
      match V.ValidateDocumentId(t)
      case Ok(v) => Ok(Some(v))
      case Err(e) => Err(e)
  }

  /** `find_one` hands back the stored `_id` as an `ObjectId`, so a response built from the raw
      document fails for every stored connection, while the same id as its string passes. */
  lemma StoredIdRejectedAsWritten(key: V.CanonicalId)
    ensures ResponseId(Some(ObjectIdValue(V.FromHex(key)))) == Err(InternalError)
    ensures ResponseId(Some(TextId(key))) == Ok(Some(key))
  {
    assert V.IsObjectId(key);
  }
}
