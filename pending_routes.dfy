/** The admin handlers for pending requests: accept and deny (with optional ignore). */
module PendingRoutes {
  import opened Wrappers
  import V = Validators
  import AM = AllowedModels
  import opened Store
  import opened WebhookEvents

  const DeniedMessage := "You denied this connection"

  /** POST /pending/accept/{id}: the store's accept, then the pending.accepted trigger with the
      granted record; the handler returns exactly that record. The id is matched by the bytes it
      spells (`V.ObjectIdKey`). */
  method AcceptConnection(db: MongoDb, events: Events, id: string, now: int, newId: Id)
    returns (r: Result<AM.AllowedConnection>)
    requires db.Valid() && db.Fresh(newId)
    modifies db`pending, db`allowed, events`sent
    ensures db.Valid()
    ensures !V.IsObjectId(id) ==>
      r == Err(BadRequest) && db.pending == old(db.pending) && db.allowed == old(db.allowed)
    ensures V.IsObjectId(id) ==>
      var key := V.ObjectIdKey(id);
      && (key !in old(db.pending) ==>
            r == Err(NotFound) && db.pending == old(db.pending) && db.allowed == old(db.allowed))
      && (key in old(db.pending) ==> db.pending == old(db.pending) - {key})
      && (key in old(db.pending) && old(db.pending)[key].service.None? ==>
            r == Err(InternalError) && db.allowed == old(db.allowed))
    ensures V.IsObjectId(id) && V.ObjectIdKey(id) in old(db.pending)
            && old(db.pending)[V.ObjectIdKey(id)].service.Some? ==>
      var p := old(db.pending)[V.ObjectIdKey(id)];
      var expireAt := ExpireAt(now, p.service.value.expiry);
      && (expireAt.Err? ==> r == Err(InternalError) && db.allowed == old(db.allowed))
      && (expireAt.Ok? ==>
            && r == Ok(AM.AllowedConnection(None, p.ipAddress, p.service.value.name, expireAt.value))
            && db.allowed == old(db.allowed)[newId := r.value])
    ensures r.Err? ==> events.sent == old(events.sent)
    ensures r.Ok? ==> events.sent == old(events.sent) + [PendingAcceptedNote(r.value)]
  {
    var valid := V.ValidateDocumentId(id);
    if valid.Err? {
      return Err(valid.error);
    }
    r := db.AcceptPendingConnection(id, now, newId);
    if r.Ok? {
      events.Trigger(PendingAcceptedNote(r.value));
    }
  }

  /** DELETE /pending/deny/{id}: 404 when the id is not pending; otherwise the store's deny, the
      pending.denied trigger with the record as it was before removal, and, when asked, the denied
      record copied into the ignored collection. */
  method DenyConnection(db: MongoDb, events: Events, id: string, ignoreConnection: bool, newId: Id)
    returns (r: Result<AM.DeniedSuccessResponse>)
    requires db.Valid() && db.Fresh(newId)
    modifies db`pending, db`ignored, events`sent
    ensures db.Valid()
    ensures !V.IsObjectId(id) ==>
      && r == Err(BadRequest) && db.pending == old(db.pending) && db.ignored == old(db.ignored)
      && events.sent == old(events.sent)
    ensures V.IsObjectId(id) ==>
      var key := V.ObjectIdKey(id);
      && (key !in old(db.pending) ==>
            && r == Err(NotFound) && db.pending == old(db.pending) && db.ignored == old(db.ignored)
            && events.sent == old(events.sent))
      && (key in old(db.pending) ==> db.pending == old(db.pending) - {key})
      && (key in old(db.pending) && old(db.pending)[key].service.None? ==>
            r == Err(InternalError) && db.ignored == old(db.ignored) && events.sent == old(events.sent))
    ensures V.IsObjectId(id) && V.ObjectIdKey(id) in old(db.pending)
            && old(db.pending)[V.ObjectIdKey(id)].service.Some? ==>
      var key := V.ObjectIdKey(id);
      var p := old(db.pending)[key];
      var denied := AM.DeniedConnection(Some(key), p.ipAddress, p.service.value.name);
      && events.sent == old(events.sent) + [PendingDeniedNote(p.(id := Some(key)))]
      && db.ignored == (if ignoreConnection then old(db.ignored)[newId := denied] else old(db.ignored))
      && r == Ok(AM.DeniedSuccessResponse(DeniedMessage, p.ipAddress, p.service.value.name, ignoreConnection))
      && AM.ValidDeniedResponse(r.value)
  {
    var valid := V.ValidateDocumentId(id);
    if valid.Err? {
      return Err(valid.error);
    }
    var pendingConnection := db.GetDocument(id, Pending);
    if pendingConnection.Err? {
      return Err(pendingConnection.error);
    }
    var denied := db.DenyPendingConnection(id, ignoreConnection);
    if denied.Err? {
      return Err(denied.error);
    }
    events.Trigger(PendingDeniedNote(pendingConnection.value.pendingRecord));
    if ignoreConnection {
      var _ := db.IgnoreConnection(denied.value, newId);
    }
    r := Ok(AM.DeniedSuccessResponse(DeniedMessage, denied.value.ipAddress, denied.value.serviceName,
                                     ignoreConnection));
  }
}
