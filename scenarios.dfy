/** End-to-end lifecycles of the handlers on a fresh database: a guest request followed by the admin's
    decision, and the conflicts the admin handlers report. Object ids are parameters; distinct ids
    stand for the distinct `_id`s the database generates. */
module Scenarios {
  import opened Wrappers
  import V = Validators
  import SM = ServiceModels
  import PM = PendingModels
  import AM = AllowedModels
  import opened Store
  import opened WebhookEvents
  import PublicApi
  import PendingRoutes
  import ConnectionRoutes
  import ServiceRoutes
  import WebhookRoutes
  import WM = WebhookModels
  import opened Collections

  lemma EmptyUnion<K, V>(m: map<K, V>)
    ensures map[] + m == m
  {
  }

  /** The pending record a one-item request from `guest` leaves. */
  function RequestRecord(contacts: PM.ContactMethodsRequest, guest: string, item: SM.ServiceItem): PM.PendingConnection {
    PublicApi.PendingRecord(PublicApi.AccessRequest(Some([item]), contacts, None, None, None), guest, item)
  }

  /** A fresh database whose catalogue holds `service`, after a guest asked for `item` of it: the
      request is accepted and stored under `requestId`, and one `pending.new` note is sent. */
  method RequestOne(service: SM.ServiceResponse, contacts: PM.ContactMethodsRequest, guest: string,
                    item: SM.ServiceItem, requestId: Id)
    returns (db: MongoDb, events: Events, requested: Result<PublicApi.RequestAccessResponse>)
    requires SM.ValidService(service) && FitsBsonInt(service.port)
    requires item.name == service.name && StorableExpiry(item.expiry)
    ensures fresh(db) && fresh(events) && db.Valid()
    ensures db.services == [service] && db.allowed == map[] && db.ignored == map[]
    ensures db.pending == map[requestId := RequestRecord(contacts, guest, item)]
    ensures events.sent == [PendingNewNote(guest, item, contacts, None)]
    ensures requested == Ok(PublicApi.RequestAccessResponse(guest, [item], PublicApi.ReceivedMessage))
  {
    db := new MongoDb();
    events := new Events();
    var created := ServiceRoutes.ServiceCreate(db, service);
    assert db.services == [service];
    var request := PublicApi.AccessRequest(Some([item]), contacts, None, None, None);
    ghost var names := PublicApi.CatalogueNames([service]);
    assert service.name in names;
    assert PublicApi.Requestable([item], names, 1) == [item];
    assert PublicApi.Reached([item], names, 1) == 1;
    ghost var record := PublicApi.PendingRecord(request, guest, item);
    assert PublicApi.NewPending(request, guest, [item], [requestId], names, 1) == map[requestId := record];
    assert PublicApi.Requested(request.services) == [item];
    assert db.pending == map[] && db.allowed == map[] && db.ignored == map[] && events.sent == [];
    assert [item][..0] == [];
    assert PublicApi.NewNotes(request, guest, [item]) == [PublicApi.NewNote(request, guest, item)];
    requested := PublicApi.RequestAccessLanding(db, events, request, guest, [requestId]);
    EmptyUnion(map[requestId := record]);
  }

  /** A guest asks for one catalogue service for `expiry` hours (or for good); the admin accepts,
      then revokes, naming the grant by `spelling`, any id spelling the same bytes (upper-case
      digits included). The grant expires `expiry` hours after acceptance, or never; a second
      accept of the same request and a second revoke both find nothing. */
  method AcceptThenRevoke(service: SM.ServiceResponse, contacts: PM.ContactMethodsRequest, guest: string,
                          expiry: Option<int>, now: int, requestId: Id, grantId: Id, spareId: Id,
                          spelling: string)
    returns (accepted: Result<AM.AllowedConnection>, acceptedAgain: Result<AM.AllowedConnection>,
             revoked: Result<AM.AllowedConnection>, revokedAgain: Result<AM.AllowedConnection>)
    requires SM.ValidService(service) && FitsBsonInt(service.port) && StorableExpiry(expiry)
    requires ExpireAt(now, expiry).Ok?
    requires requestId != grantId && requestId != spareId && grantId != spareId
    requires V.IsObjectId(spelling) && V.FromHex(spelling) == V.FromHex(grantId)
    ensures accepted == Ok(AM.AllowedConnection(None, guest, service.name, ExpireAt(now, expiry).value))
    ensures expiry.None? ==> accepted.value.expireAt.None?
    ensures expiry.Some? ==> accepted.value.expireAt == Some(now + 3600 * expiry.value)
    ensures acceptedAgain == Err(NotFound)
    ensures revoked == Ok(accepted.value.(id := Some(grantId)))
    ensures revokedAgain == Err(NotFound)
  {
    var db, events, _ := RequestOne(service, contacts, guest, SM.ServiceItem(service.name, expiry), requestId);
    ghost var grant := AM.AllowedConnection(None, guest, service.name, ExpireAt(now, expiry).value);
    assert V.ObjectIdKey(requestId) == requestId;
    accepted := PendingRoutes.AcceptConnection(db, events, requestId, now, grantId);
    assert db.pending == map[] && db.allowed == map[grantId := grant];
    assert expiry.Some? ==> grant.expireAt == Some(now + 3600 * expiry.value);
    acceptedAgain := PendingRoutes.AcceptConnection(db, events, requestId, now, spareId);
    V.SameObjectId(spelling, grantId);
    assert V.ObjectIdKey(spelling) == grantId;
    revoked := ConnectionRoutes.RevokeConnection(db, spelling);
    assert db.allowed == map[];
    revokedAgain := ConnectionRoutes.RevokeConnection(db, grantId);
  }

  /** An expiry that takes the grant past the year 9999 is accepted into the pending collection, but
      accepting it fails (500) after the pending record is gone: nothing is granted and the request
      cannot be accepted again. */
  method ExpiryPastDatetimeRange(service: SM.ServiceResponse, contacts: PM.ContactMethodsRequest,
                                 guest: string, hours: int, now: int, requestId: Id, grantId: Id)
    returns (accepted: Result<AM.AllowedConnection>, acceptedAgain: Result<AM.AllowedConnection>,
             granted: nat)
    requires SM.ValidService(service) && FitsBsonInt(service.port) && FitsBsonInt(hours)
    requires ExpireAt(now, Some(hours)).Err?
    requires requestId != grantId
    ensures accepted == Err(InternalError)
    ensures acceptedAgain == Err(NotFound)
    ensures granted == 0
  {
    var db, events, _ := RequestOne(service, contacts, guest, SM.ServiceItem(service.name, Some(hours)), requestId);
    accepted := PendingRoutes.AcceptConnection(db, events, requestId, now, grantId);
    acceptedAgain := PendingRoutes.AcceptConnection(db, events, requestId, now, grantId);
    granted := |db.allowed|;
  }

  /** The admin denies a request and asks for the address to be ignored: the request can no longer
      be denied or accepted, and the ignored record can be removed once. */
  method DenyAndIgnore(service: SM.ServiceResponse, contacts: PM.ContactMethodsRequest, guest: string,
                       expiry: Option<int>, now: int, requestId: Id, ignoreId: Id, spareId: Id)
    returns (denied: Result<AM.DeniedSuccessResponse>, deniedAgain: Result<AM.DeniedSuccessResponse>,
             acceptedAfter: Result<AM.AllowedConnection>,
             unignored: Result<AM.DeniedConnection>, unignoredAgain: Result<AM.DeniedConnection>)
    requires SM.ValidService(service) && FitsBsonInt(service.port) && StorableExpiry(expiry)
    requires requestId != ignoreId && requestId != spareId && ignoreId != spareId
    ensures denied == Ok(AM.DeniedSuccessResponse(PendingRoutes.DeniedMessage, guest, service.name, true))
    ensures deniedAgain == Err(NotFound)
    ensures acceptedAfter == Err(NotFound)
    ensures unignored == Ok(AM.DeniedConnection(Some(ignoreId), guest, service.name))
    ensures unignoredAgain == Err(NotFound)
  {
    var db, events, _ := RequestOne(service, contacts, guest, SM.ServiceItem(service.name, expiry), requestId);
    denied := PendingRoutes.DenyConnection(db, events, requestId, true, ignoreId);
    deniedAgain := PendingRoutes.DenyConnection(db, events, requestId, true, spareId);
    acceptedAfter := PendingRoutes.AcceptConnection(db, events, requestId, now, spareId);
    unignored := ConnectionRoutes.UnignoreConnection(db, ignoreId);
    unignoredAgain := ConnectionRoutes.UnignoreConnection(db, ignoreId);
  }

  /** The same guest asking twice for the same service leaves two pending requests: requests are
      not merged. */
  method RepeatedRequest(service: SM.ServiceResponse, contacts: PM.ContactMethodsRequest, guest: string,
                         expiry: Option<int>, firstId: Id, secondId: Id)
    returns (requestedAgain: Result<PublicApi.RequestAccessResponse>, pendingCount: nat)
    requires SM.ValidService(service) && FitsBsonInt(service.port) && StorableExpiry(expiry)
    requires firstId != secondId
    ensures requestedAgain.Ok?
    ensures pendingCount == 2
  {
    var item := SM.ServiceItem(service.name, expiry);
    var db, events, _ := RequestOne(service, contacts, guest, item, firstId);
    var request := PublicApi.AccessRequest(Some([item]), contacts, None, None, None);
    ghost var names := PublicApi.CatalogueNames([service]);
    assert service.name in names;
    assert PublicApi.Requestable([item], names, 1) == [item];
    ghost var record := RequestRecord(contacts, guest, item);
    assert PublicApi.NewPending(request, guest, [item], [secondId], names, 1) == map[secondId := record];
    assert PublicApi.Requested(request.services) == [item];
    assert PublicApi.Reached([item], names, 1) == 1;
    assert db.pending == map[firstId := record] && db.Fresh(secondId);
    requestedAgain := PublicApi.RequestAccessLanding(db, events, request, guest, [secondId]);
    assert db.pending == map[firstId := record] + map[secondId := record];
    assert db.pending.Keys == {firstId, secondId};
    pendingCount := |db.pending|;
  }

  /** A second config for an event that already has one is refused and the first stays in force;
      once removed, the event can be configured again. */
  method WebhookConflict(first: WM.HTTPRequest, second: WM.HTTPRequest)
    returns (created: Result<WM.CreateWebhookResponse>, conflict: Result<WM.CreateWebhookResponse>,
             inForce: Option<WM.HTTPRequest>, removed: Result<WebhookRoutes.DeleteWebhookResponse>,
             recreated: Result<WM.CreateWebhookResponse>)
    requires first.event == second.event
    ensures created == Ok(WM.CreateWebhookResponse(first, WM.CreatedMessage))
    ensures conflict == Err(Conflict)
    ensures inForce == Some(first)
    ensures removed.Ok?
    ensures recreated == Ok(WM.CreateWebhookResponse(second, WM.CreatedMessage))
  {
    var db := new MongoDb();
    created := WebhookRoutes.CreateWebhook(db, first);
    conflict := WebhookRoutes.CreateWebhook(db, second);
    inForce := db.GetWebhook(first.event);
    removed := WebhookRoutes.RemoveWebhook(db, first.event);
    recreated := WebhookRoutes.CreateWebhook(db, second);
  }

  /** A catalogue name can be created once. */
  method ServiceConflict(service: SM.ServiceResponse, again: SM.ServiceResponse)
    returns (created: Result<SM.ServiceResponse>, createdAgain: Result<SM.ServiceResponse>, count: nat)
    requires SM.ValidService(service) && SM.ValidService(again) && again.name == service.name
    requires FitsBsonInt(service.port)
    ensures created == Ok(service)
    ensures createdAgain == Err(Conflict)
    ensures count == 1
  {
    var db := new MongoDb();
    created := ServiceRoutes.ServiceCreate(db, service);
    createdAgain := ServiceRoutes.ServiceCreate(db, again);
    count := |db.services|;
  }

  /** An edit may rename an entry onto the name of another, after which two entries share a name. */
  method RenameOntoTakenName(a: SM.ServiceResponse, b: SM.ServiceResponse)
    returns (renamed: Result<SM.ServiceResponse>, namesUnique: bool)
    requires SM.ValidService(a) && SM.ValidService(b) && FitsBsonInt(a.port) && FitsBsonInt(b.port)
    requires a.name != b.name && a.name != "" && |b.name| <= SM.MaxFieldLength
    ensures renamed == Ok(b.(name := a.name))
    ensures !namesUnique
  {
    var db := new MongoDb();
    var _ := ServiceRoutes.ServiceCreate(db, a);
    var _ := ServiceRoutes.ServiceCreate(db, b);
    assert db.services == [a, b];
    var edit := ServiceRoutes.ServiceEditRequest(Some(a.name), None, None, None, None);
    assert ServiceRoutes.MergeEdit(b, edit) == b.(name := a.name);
    assert FirstIndex([a, b], SM.NameOf, b.name) == Some(1);
    renamed := ServiceRoutes.ServiceEdit(db, edit, b.name);
    assert db.services == [a, b.(name := a.name)];
    namesUnique := Distinct(db.services, SM.NameOf);
  }
}
