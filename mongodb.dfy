/** The database helper (`MongoDb`): five collections held in memory, with the reads and writes the
    handlers perform on them. Connection collections are keyed by `_id`; the catalogue and the
    webhook configs are searched by a field, so they are sequences in natural order. */
module Store {
  import opened Wrappers
  import opened Collections
  import SM = ServiceModels
  import PM = PendingModels
  import AM = AllowedModels
  import WM = WebhookModels
  import V = Validators

  /** A document's `_id`, as `str(ObjectId)` prints it. Queries by `ObjectId(s)` compare bytes, so a
      path id is first brought to this form with `V.ObjectIdKey`. */
  type Id = V.CanonicalId

  /** The connection collections a document can be read from by id. */
  datatype CollectionName = Pending | Allowed | Ignored

  /** A document read back by id: the stored record, its `id` set to the document's `_id`. */
  datatype Document =
    | PendingDoc(pendingRecord: PM.PendingConnection)
    | AllowedDoc(allowedRecord: AM.AllowedConnection)
    | IgnoredDoc(ignoredRecord: AM.DeniedConnection)

  /** The widest integer BSON stores is a signed 64-bit one; the driver refuses to encode a wider
      Python int, so an insert or update carrying one raises. */
  const BsonIntMin := -0x8000_0000_0000_0000
  const BsonIntMax := 0x7fff_ffff_ffff_ffff

  predicate FitsBsonInt(x: int) {
    BsonIntMin <= x <= BsonIntMax
  }

  /** A requested expiry the driver can store. */
  predicate StorableExpiry(expiry: Option<int>) {
    expiry.Some? ==> FitsBsonInt(expiry.value)
  }

  const SecondsPerHour := 3600

  /** The range of Python's `datetime` in seconds since the epoch (UTC): 0001-01-01T00:00:00 to
      9999-12-31T23:59:59. Leaving it raises OverflowError. */
  const MinInstant := -62135596800
  const MaxInstant := 253402300799

  /** `datetime.now(timezone.utc) + timedelta(hours=expiry)` with `now` in whole seconds, or None
      when no expiry was requested (permanent access). An instant outside `datetime`'s range raises
      OverflowError, which the handler turns into a 500. (A duration too large for `timedelta` itself
      is one such case: its hours alone span more than the whole range.) */
  function ExpireAt(now: int, expiry: Option<int>): (r: Result<Option<int>>)
    ensures expiry.None? ==> r == Ok(None)
    ensures expiry.Some? ==> (r.Ok? <==> MinInstant <= now + SecondsPerHour * expiry.value <= MaxInstant)
    ensures r.Ok? && expiry.Some? ==> r.value.Some? && r.value.value - now == 3600 * expiry.value
    ensures r.Err? ==> r.error == InternalError
  {
    match expiry
    case None => Ok(None)
    case Some(hours) =>
      var instant := now + hours * SecondsPerHour;
      if MinInstant <= instant <= MaxInstant then Ok(Some(instant)) else Err(InternalError)
  }

  /** Of two grants accepted at the same moment, the longer one never ends first. */
  lemma ExpireAtMonotonic(now: int, h1: int, h2: int)
    requires h1 <= h2 && ExpireAt(now, Some(h1)).Ok? && ExpireAt(now, Some(h2)).Ok?
    ensures ExpireAt(now, Some(h1)).value.value <= ExpireAt(now, Some(h2)).value.value
  {
  }

  /** A duration of more hours than the whole `datetime` range holds fails at any moment inside it. */
  lemma OverlongExpiryFails(now: int, hours: int)
    requires MinInstant <= now <= MaxInstant
    requires SecondsPerHour * hours > MaxInstant - MinInstant
    ensures ExpireAt(now, Some(hours)) == Err(InternalError)
  {
  }

  class MongoDb {
    var pending: map<Id, PM.PendingConnection>
    var allowed: map<Id, AM.AllowedConnection>
    var ignored: map<Id, AM.DeniedConnection>
    var services: seq<SM.ServiceResponse>
    var webhooks: seq<WM.HTTPRequest>

    /** Object ids are unique across the database, so no `_id` names documents in two connection
        collections; every catalogue entry passed `ServiceResponseModel` validation on its way in. */
    ghost predicate Valid()
      reads this
    {
      && pending.Keys !! allowed.Keys
      && pending.Keys !! ignored.Keys
      && allowed.Keys !! ignored.Keys
      && forall s :: s in services ==> SM.ValidService(s)
    }

    /** An `_id` the database has not yet given to any connection document. */
    predicate Fresh(id: Id)
      reads this
    {
      id !in pending && id !in allowed && id !in ignored
    }

    constructor ()
      ensures Valid()
      ensures pending == map[] && allowed == map[] && ignored == map[]
      ensures services == [] && webhooks == []
    {
      pending, allowed, ignored := map[], map[], map[];
      services, webhooks := [], [];
    }

    function Keys(collection: CollectionName): set<Id>
      reads this
    {
      match collection
      case Pending => pending.Keys
      case Allowed => allowed.Keys
      case Ignored => ignored.Keys
    }

    /** `get_document`: the document whose `_id` is `ObjectId(documentId)` in the given collection
        (the pending one unless another is named), or 404 when there is none. It changes nothing.
        The id is matched by the bytes it spells, so either case of hexadecimal digit finds it. */
    function GetDocument(documentId: string, collection: CollectionName): (r: Result<Document>)
      requires V.IsObjectId(documentId)
      reads this
      ensures var key := V.ObjectIdKey(documentId);
        && (r.Err? <==> key !in Keys(collection))
        && (r.Err? ==> r.error == NotFound)
        && (r.Ok? && collection == Pending ==> r.value == PendingDoc(pending[key].(id := Some(key))))
        && (r.Ok? && collection == Allowed ==> r.value == AllowedDoc(allowed[key].(id := Some(key))))
        && (r.Ok? && collection == Ignored ==> r.value == IgnoredDoc(ignored[key].(id := Some(key))))
    {
      var key := V.ObjectIdKey(documentId);
      match collection
      case Pending =>
        if key in pending then Ok(PendingDoc(pending[key].(id := Some(key)))) else Err(NotFound)
      case Allowed =>
        if key in allowed then Ok(AllowedDoc(allowed[key].(id := Some(key)))) else Err(NotFound)
      case Ignored =>
        if key in ignored then Ok(IgnoredDoc(ignored[key].(id := Some(key)))) else Err(NotFound)
    }

    /** `create_pending_connection`: validates the record and inserts it under the new `_id`. The
        driver writes that `_id` into the inserted dict, which is what is returned. A record that
        fails validation, or whose expiry is wider than BSON's integers, raises (500) and inserts
        nothing. */
    method CreatePendingConnection(
      newId: Id,
      remoteAddress: string,
      service: Option<SM.ServiceItem>,
      contactMethods: PM.ContactMethods,
      additionalNotes: Option<string>,
      requestLatitude: Option<real>,
      requestLongitude: Option<real>)
      returns (r: Result<PM.PendingConnection>)
      requires Valid() && Fresh(newId)
      modifies this`pending
      ensures Valid()
      ensures var doc := PM.PendingConnection(None, remoteAddress, service, contactMethods,
                                              additionalNotes, requestLatitude, requestLongitude);
        if PM.ValidPending(doc) && (service.Some? ==> StorableExpiry(service.value.expiry))
        then r == Ok(doc.(id := Some(newId))) && pending == old(pending)[newId := doc]
        else r == Err(InternalError) && pending == old(pending)
    {
      var doc := PM.PendingConnection(None, remoteAddress, service, contactMethods,
                                      additionalNotes, requestLatitude, requestLongitude);
      if !PM.ValidPending(doc) {
        return Err(InternalError);
      }
      if service.Some? && !StorableExpiry(service.value.expiry) {
        return Err(InternalError);
      }
      pending := pending[newId := doc];
      r := Ok(doc.(id := Some(newId)));
    }

    /** `accept_pending_connection`: 404 before any change when no pending document has that id;
        otherwise the pending record is removed and an allowed record for the same address and
        service is inserted, expiring `expiry` hours after `now`. A pending record without a
        service, or whose expiry falls outside `datetime`'s range, is removed and then fails (500)
        with nothing inserted. */
    method AcceptPendingConnection(connectionId: string, now: int, newId: Id)
      returns (r: Result<AM.AllowedConnection>)
      requires Valid() && Fresh(newId) && V.IsObjectId(connectionId)
      modifies this`pending, this`allowed
      ensures Valid()
      ensures var key := V.ObjectIdKey(connectionId);
        key !in old(pending) ==> r == Err(NotFound) && pending == old(pending) && allowed == old(allowed)
      ensures var key := V.ObjectIdKey(connectionId);
        key in old(pending) ==> pending == old(pending) - {key}
      ensures var key := V.ObjectIdKey(connectionId);
        key in old(pending) && old(pending)[key].service.None? ==>
          r == Err(InternalError) && allowed == old(allowed)
      ensures var key := V.ObjectIdKey(connectionId);
        key in old(pending) && old(pending)[key].service.Some? ==>
          var p := old(pending)[key];
          var expireAt := ExpireAt(now, p.service.value.expiry);
          && (expireAt.Err? ==> r == Err(InternalError) && allowed == old(allowed))
          && (expireAt.Ok? ==>
                && r == Ok(AM.AllowedConnection(None, p.ipAddress, p.service.value.name, expireAt.value))
                && allowed == old(allowed)[newId := r.value])
    {
      var found := GetDocument(connectionId, Pending);
      if found.Err? {
        return Err(found.error);
      }
      var key := V.ObjectIdKey(connectionId);
      var p := pending[key];
      pending := pending - {key};
      if p.service.None? {
        return Err(InternalError);
      }
      var requested := p.service.value;
      var expireAt := ExpireAt(now, requested.expiry);
      if expireAt.Err? {
        return Err(InternalError);
      }
      var granted := AM.AllowedConnection(None, p.ipAddress, requested.name, expireAt.value);
      allowed := allowed[newId := granted];
      r := Ok(granted);
    }

    /** `deny_pending_connection`: removes the pending record and returns a denied record with the
        same id, address and service name. It touches no other collection and `ignoreConnection` has
        no effect. With no such record (or one without a service) it fails with 500. */
    method DenyPendingConnection(connectionId: string, ignoreConnection: bool)
      returns (r: Result<AM.DeniedConnection>)
      requires Valid() && V.IsObjectId(connectionId)
      modifies this`pending
      ensures Valid()
      ensures var key := V.ObjectIdKey(connectionId);
        pending == old(pending) - {key}
      ensures var key := V.ObjectIdKey(connectionId);
        key !in old(pending) || old(pending)[key].service.None? ==> r == Err(InternalError)
      ensures var key := V.ObjectIdKey(connectionId);
        key in old(pending) && old(pending)[key].service.Some? ==>
          var p := old(pending)[key];
          r == Ok(AM.DeniedConnection(Some(key), p.ipAddress, p.service.value.name))
    {
      var key := V.ObjectIdKey(connectionId);
      if key !in pending {
        return Err(InternalError);
      }
      var deleted := pending[key];
      pending := pending - {key};
      if deleted.service.None? {
        return Err(InternalError);
      }
      r := Ok(AM.DeniedConnection(Some(key), deleted.ipAddress, deleted.service.value.name));
    }

    /** `ignore_connection`: inserts the denied record unchanged and returns it. */
    method IgnoreConnection(deniedConnection: AM.DeniedConnection, newId: Id)
      returns (r: AM.DeniedConnection)
      requires Valid() && Fresh(newId)
      modifies this`ignored
      ensures Valid()
      ensures r == deniedConnection
      ensures ignored == old(ignored)[newId := deniedConnection]
    {
      ignored := ignored[newId := deniedConnection];
      r := deniedConnection;
    }

    /** `revoke_connection`: removes the allowed document with that id and returns it, if any. */
    method RevokeConnection(connectionId: string) returns (r: Option<AM.AllowedConnection>)
      requires Valid() && V.IsObjectId(connectionId)
      modifies this`allowed
      ensures Valid()
      ensures var key := V.ObjectIdKey(connectionId);
        && allowed == old(allowed) - {key}
        && r == if key in old(allowed) then Some(old(allowed)[key].(id := Some(key))) else None
    {
      var key := V.ObjectIdKey(connectionId);
      r := if key in allowed then Some(allowed[key].(id := Some(key))) else None;
      allowed := allowed - {key};
    }

    /** `unignore_connection`: removes the ignored document with that id and returns it, if any. */
    method UnignoreConnection(connectionId: string) returns (r: Option<AM.DeniedConnection>)
      requires Valid() && V.IsObjectId(connectionId)
      modifies this`ignored
      ensures Valid()
      ensures var key := V.ObjectIdKey(connectionId);
        && ignored == old(ignored) - {key}
        && r == if key in old(ignored) then Some(old(ignored)[key].(id := Some(key))) else None
    {
      var key := V.ObjectIdKey(connectionId);
      r := if key in ignored then Some(ignored[key].(id := Some(key))) else None;
      ignored := ignored - {key};
    }
    /** `get_webhook`: the first config stored for the event, if any. */
    function GetWebhook(event: WM.Event): (r: Option<WM.HTTPRequest>)
      reads this
      ensures r.Some? ==> r.value in webhooks && r.value.event == event
      ensures r.Some? ==> FirstIndex(webhooks, WM.EventOf, event).Some?
                          && r.value == webhooks[FirstIndex(webhooks, WM.EventOf, event).value]
      ensures r.None? <==> forall w :: w in webhooks ==> w.event != event
    {
      FindOne(webhooks, WM.EventOf, event)
    }

    /** `create_webhook_request`: appends the config; it does not check for an existing one. */
    method CreateWebhookRequest(httpRequest: WM.HTTPRequest)
      modifies this`webhooks
      ensures webhooks == old(webhooks) + [httpRequest]
    {
      webhooks := webhooks + [httpRequest];
    }

    /** Intended `modify_webhook`: applies the update to the first config for the event and returns
        the updated config; None when there is none. */
    method ModifyWebhook(event: WM.Event, update: WM.WebhookUpdate) returns (r: Option<WM.HTTPRequest>)
      modifies this`webhooks
      ensures FirstIndex(old(webhooks), WM.EventOf, event).None? ==> r.None? && webhooks == old(webhooks)
      ensures FirstIndex(old(webhooks), WM.EventOf, event).Some? ==>
        var i := FirstIndex(old(webhooks), WM.EventOf, event).value;
        r == Some(WM.ApplyUpdate(old(webhooks)[i], update)) && webhooks == old(webhooks)[i := r.value]
    {
      var i := FirstIndex(webhooks, WM.EventOf, event);
      if i.None? {
        return None;
      }
      var updated := WM.ApplyUpdate(webhooks[i.value], update);
      webhooks := webhooks[i.value := updated];
      r := Some(updated);
    }

    /** Intended `delete_webhook`: removes the first config for the event. */
    method DeleteWebhook(event: WM.Event)
      modifies this`webhooks
      ensures webhooks == DeleteOne(old(webhooks), WM.EventOf, event)
    {
      webhooks := DeleteOne(webhooks, WM.EventOf, event);
    }

    /** `get_service`: the first catalogue entry with that name, if any. */
    function GetService(serviceName: string): (r: Option<SM.ServiceResponse>)
      reads this
      ensures r.Some? ==> r.value in services && r.value.name == serviceName
      ensures r.Some? ==> FirstIndex(services, SM.NameOf, serviceName).Some?
                          && r.value == services[FirstIndex(services, SM.NameOf, serviceName).value]
      ensures r.None? <==> forall s :: s in services ==> s.name != serviceName
    {
      FindOne(services, SM.NameOf, serviceName)
    }

    /** `create_service`: validates and appends the entry, returning it; it does not check for a
        duplicate name. An entry that fails validation, or whose port is wider than BSON's integers,
        raises (500) and changes nothing. */
    method CreateService(
      serviceName: string,
      description: Option<string>,
      internalAddress: string,
      port: int,
      protocol: SM.Protocol)
      returns (r: Result<SM.ServiceResponse>)
      requires Valid()
      modifies this`services
      ensures Valid()
      ensures var s := SM.ServiceResponse(serviceName, description, internalAddress, port, protocol);
        if SM.ValidService(s) && FitsBsonInt(port) then r == Ok(s) && services == old(services) + [s]
        else r == Err(InternalError) && services == old(services)
    {
      var payload := SM.ServiceResponse(serviceName, description, internalAddress, port, protocol);
      if !SM.ValidService(payload) || !FitsBsonInt(port) {
        return Err(InternalError);
      }
      services := services + [payload];
      r := Ok(payload);
    }

    /** `modify_service`: the new name defaults to the old one when empty; the first entry named
        `serviceName` is overwritten with the validated payload, which is returned. A payload that
        fails validation, or whose port is wider than BSON's integers, raises (500) and changes
        nothing. */
    method ModifyService(
      serviceName: string,
      description: Option<string>,
      internalAddress: string,
      port: int,
      protocol: SM.Protocol,
      newServiceName: Option<string>)
      returns (r: Result<SM.ServiceResponse>)
      requires Valid()
      modifies this`services
      ensures Valid()
      ensures var name := if newServiceName.Some? && newServiceName.value != "" then newServiceName.value
                          else serviceName;
        var s := SM.ServiceResponse(name, description, internalAddress, port, protocol);
        if SM.ValidService(s) && FitsBsonInt(port)
        then r == Ok(s) && services == UpdateOne(old(services), SM.NameOf, serviceName, s)
        else r == Err(InternalError) && services == old(services)
    {
      var name := serviceName;
      if newServiceName.Some? && newServiceName.value != "" {
        name := newServiceName.value;
      }
      var payload := SM.ServiceResponse(name, description, internalAddress, port, protocol);
      if !SM.ValidService(payload) || !FitsBsonInt(port) {
        return Err(InternalError);
      }
      services := UpdateOne(services, SM.NameOf, serviceName, payload);
      r := Ok(payload);
    }

    /** `delete_service`: removes the first entry with that name. */
    method DeleteService(serviceName: string)
      requires Valid()
      modifies this`services
      ensures Valid()
      ensures services == DeleteOne(old(services), SM.NameOf, serviceName)
    {
      services := DeleteOne(services, SM.NameOf, serviceName);
    }
  }
}
