/** The guest-facing API: a request for access to catalogue services. */
module PublicApi {
  import opened Wrappers
  import SM = ServiceModels
  import PM = PendingModels
  import opened Store
  import opened WebhookEvents

  const ReceivedMessage := "Your request has been received and is pending approval."

  /** The request body: the services asked for (possibly none), how to reach the requester, a note
      and a position. */
  datatype AccessRequest = AccessRequest(
    services: Option<seq<SM.ServiceItem>>,
    contactMethods: PM.ContactMethodsRequest,
    note: Option<string>,
    lat: Option<real>,
    lon: Option<real>)

  /** The field constraints of `AccessRequest`; a body breaking them is refused before the handler. */
  predicate ValidAccessRequest(a: AccessRequest) {
    PM.ValidNotes(a.note) && PM.ValidLat(a.lat) && PM.ValidLon(a.lon)
  }

  datatype RequestAccessResponse = RequestAccessResponse(
    ipAddress: string,
    servicesRequested: seq<SM.ServiceItem>,
    message: string)

  /** The items asked for; an absent list asks for nothing. */
  function Requested(services: Option<seq<SM.ServiceItem>>): seq<SM.ServiceItem> {
    match services
    case None => []
    case Some(items) => items
  }

  /** The distinct names in the catalogue. */
  function CatalogueNames(services: seq<SM.ServiceResponse>): (r: set<string>)
    ensures forall n :: n in r <==> exists s :: s in services && s.name == n
  {
    set s | s in services :: s.name
  }

  /** A contact address as stored: none for an absent or empty value, otherwise the address mapped
      to "not yet notified". */
  function ContactEntry(value: Option<string>): (r: map<string, bool>)
    ensures value.None? || value.value == "" ==> r == map[]
    ensures value.Some? && value.value != "" ==> r.Keys == {value.value} && !r[value.value]
  {
    match value
    case None => map[]
    case Some(v) => if v == "" then map[] else map[v := false]
  }

  function StoredContacts(c: PM.ContactMethodsRequest): PM.ContactMethods {
    PM.ContactMethods(c.name, ContactEntry(c.email), ContactEntry(c.phoneNumber))
  }

  /** The pending record stored for one accepted item. */
  function PendingRecord(request: AccessRequest, remoteAddress: string, item: SM.ServiceItem): PM.PendingConnection {
    PM.PendingConnection(None, remoteAddress, Some(item), StoredContacts(request.contactMethods),
                         request.note, request.lat, request.lon)
  }

  /** The notification sent for one accepted item. */
  function NewNote(request: AccessRequest, remoteAddress: string, item: SM.ServiceItem): Notification {
    PendingNewNote(remoteAddress, item, request.contactMethods, request.note)
  }

  /** The first `n` requested items whose name is in the catalogue, in request order, repeats kept. */
  function Requestable(items: seq<SM.ServiceItem>, names: set<string>, n: nat): (r: seq<SM.ServiceItem>)
    requires n <= |items|
    ensures |r| <= n
  {
    if n == 0 then []
    else
      var rest := Requestable(items, names, n - 1);
      if items[n - 1].name in names then rest + [items[n - 1]] else rest
  }

  /** An item is accepted exactly when it was requested and its name is in the catalogue. */
  lemma {:induction false} RequestableMembers(items: seq<SM.ServiceItem>, names: set<string>, n: nat)
    requires n <= |items|
    ensures forall x :: x in Requestable(items, names, n) <==> x in items[..n] && x.name in names
  {
    if n > 0 {
      RequestableMembers(items, names, n - 1);
      assert items[..n] == items[..n - 1] + [items[n - 1]];
    }
  }

  /** The catalogued items of a list, in order and with repeats, taken from the front: the reference
      reading of the handler's filter. */
  function Catalogued(items: seq<SM.ServiceItem>, names: set<string>): seq<SM.ServiceItem> {
    if items == [] then []
    else (if items[0].name in names then [items[0]] else []) + Catalogued(items[1..], names)
  }

  lemma {:induction false} CataloguedAppend(items: seq<SM.ServiceItem>, item: SM.ServiceItem, names: set<string>)
    ensures Catalogued(items + [item], names)
         == Catalogued(items, names) + (if item.name in names then [item] else [])
  {
    if items != [] {
      assert (items + [item])[1..] == items[1..] + [item];
      CataloguedAppend(items[1..], item, names);
    } else {
      assert (items + [item])[1..] == [];
    }
  }

  /** The accepted items are exactly the requested ones filtered by catalogue membership, keeping
      their order and repeats. */
  lemma {:induction false} RequestableIsCatalogued(items: seq<SM.ServiceItem>, names: set<string>, n: nat)
    requires n <= |items|
    ensures Requestable(items, names, n) == Catalogued(items[..n], names)
  {
    if n > 0 {
      RequestableIsCatalogued(items, names, n - 1);
      assert items[..n] == items[..n - 1] + [items[n - 1]];
      CataloguedAppend(items[..n - 1], items[n - 1], names);
    }
  }

  /** When every requested name is in the catalogue, every item is accepted, in order. */
  lemma {:induction false} AllListedAllAccepted(items: seq<SM.ServiceItem>, names: set<string>, n: nat)
    requires n <= |items|
    requires forall k :: 0 <= k < |items| ==> items[k].name in names
    ensures Requestable(items, names, n) == items[..n]
  {
    if n > 0 {
      AllListedAllAccepted(items, names, n - 1);
      assert items[..n] == items[..n - 1] + [items[n - 1]];
    }
  }

  /** The pending records the first `n` items add: one per accepted item, under that item's new `_id`. */
  function NewPending(request: AccessRequest, remoteAddress: string, items: seq<SM.ServiceItem>,
                      ids: seq<Id>, names: set<string>, n: nat): (r: map<Id, PM.PendingConnection>)
    requires |ids| == |items| && n <= |items|
  {
    if n == 0 then map[]
    else
      var rest := NewPending(request, remoteAddress, items, ids, names, n - 1);
      if items[n - 1].name in names then rest[ids[n - 1] := PendingRecord(request, remoteAddress, items[n - 1])]
      else rest
  }

  /** The new records are keyed by exactly the ids of the accepted items. */
  lemma {:induction false} NewPendingKeys(request: AccessRequest, remoteAddress: string,
                                          items: seq<SM.ServiceItem>, ids: seq<Id>, names: set<string>, n: nat)
    requires |ids| == |items| && n <= |items|
    ensures forall id :: id in NewPending(request, remoteAddress, items, ids, names, n) <==>
      exists k :: 0 <= k < n && ids[k] == id && items[k].name in names
  {
    if n > 0 {
      NewPendingKeys(request, remoteAddress, items, ids, names, n - 1);
    }
  }

  predicate DistinctIds(ids: seq<Id>) {
    forall i, j :: 0 <= i < j < |ids| ==> ids[i] != ids[j]
  }

  /** With distinct ids, each accepted item's record is the one stored under its id. */
  lemma {:induction false} NewPendingRecords(request: AccessRequest, remoteAddress: string,
                                             items: seq<SM.ServiceItem>, ids: seq<Id>, names: set<string>, n: nat)
    requires |ids| == |items| && n <= |items| && DistinctIds(ids)
    ensures forall k :: 0 <= k < n && items[k].name in names ==>
      && ids[k] in NewPending(request, remoteAddress, items, ids, names, n)
      && NewPending(request, remoteAddress, items, ids, names, n)[ids[k]] == PendingRecord(request, remoteAddress, items[k])
  {
    if n > 0 {
      NewPendingRecords(request, remoteAddress, items, ids, names, n - 1);
      forall k | 0 <= k < n - 1
        ensures ids[k] != ids[n - 1]
      {
      }
    }
  }

  /** An id not among the first `n` keys none of the records they add. */
  lemma NewIdNotUsed(request: AccessRequest, remoteAddress: string, items: seq<SM.ServiceItem>,
                     ids: seq<Id>, names: set<string>, n: nat)
    requires |ids| == |items| && n < |items| && DistinctIds(ids)
    ensures ids[n] !in NewPending(request, remoteAddress, items, ids, names, n)
  {
    NewPendingKeys(request, remoteAddress, items, ids, names, n);
  }

  /** With distinct ids, a request adds exactly as many pending records as it has accepted items. */
  lemma {:induction false} NewPendingCount(request: AccessRequest, remoteAddress: string,
                                           items: seq<SM.ServiceItem>, ids: seq<Id>, names: set<string>, n: nat)
    requires |ids| == |items| && n <= |items| && DistinctIds(ids)
    ensures |NewPending(request, remoteAddress, items, ids, names, n).Keys| == |Requestable(items, names, n)|
  {
    if n > 0 {
      var rest := NewPending(request, remoteAddress, items, ids, names, n - 1);
      NewPendingCount(request, remoteAddress, items, ids, names, n - 1);
      if items[n - 1].name in names {
        NewIdNotUsed(request, remoteAddress, items, ids, names, n - 1);
        assert (rest[ids[n - 1] := PendingRecord(request, remoteAddress, items[n - 1])]).Keys == rest.Keys + {ids[n - 1]};
      }
    }
  }

  /** An accepted item whose record the driver cannot insert: its expiry is wider than BSON's
      integers, so `create_pending_connection` raises and the request fails with 500 there. */
  predicate Unstorable(item: SM.ServiceItem, names: set<string>) {
    item.name in names && !StorableExpiry(item.expiry)
  }

  /** How far the handler gets among the first `n` items: the index of the first unstorable one,
      or `n` when there is none. */
  function Reached(items: seq<SM.ServiceItem>, names: set<string>, n: nat): (k: nat)
    requires n <= |items|
    ensures k <= n
  {
    if n == 0 then 0
    else
      var k := Reached(items, names, n - 1);
      if k < n - 1 then k
      else if Unstorable(items[n - 1], names) then n - 1
      else n
  }

  /** The handler gets past every item before the point it reaches, and stops only at an
      unstorable one. */
  lemma {:induction false} ReachedMeaning(items: seq<SM.ServiceItem>, names: set<string>, n: nat)
    requires n <= |items|
    ensures forall j :: 0 <= j < Reached(items, names, n) ==> !Unstorable(items[j], names)
    ensures Reached(items, names, n) < n ==> Unstorable(items[Reached(items, names, n)], names)
  {
    if n > 0 {
      ReachedMeaning(items, names, n - 1);
    }
  }

  /** Once the handler stops at item `i`, no later item is reached. */
  lemma {:induction false} ReachedStops(items: seq<SM.ServiceItem>, names: set<string>, i: nat, n: nat)
    requires i < n <= |items|
    requires Reached(items, names, i) == i && Unstorable(items[i], names)
    ensures Reached(items, names, n) == i
  {
    if n > i + 1 {
      ReachedStops(items, names, i, n - 1);
    }
  }

  /** One more accepted, storable item: the handler gets past it, accepts it and stores its record. */
  lemma StepStored(request: AccessRequest, remoteAddress: string, items: seq<SM.ServiceItem>,
                   ids: seq<Id>, names: set<string>, i: nat)
    requires |ids| == |items| && i < |items| && Reached(items, names, i) == i
    requires items[i].name in names && StorableExpiry(items[i].expiry)
    ensures Reached(items, names, i + 1) == i + 1
    ensures Requestable(items, names, i + 1) == Requestable(items, names, i) + [items[i]]
    ensures NewPending(request, remoteAddress, items, ids, names, i + 1)
      == NewPending(request, remoteAddress, items, ids, names, i)[ids[i] := PendingRecord(request, remoteAddress, items[i])]
  {
  }

  /** One more item naming no service: the handler gets past it and neither accepts nor stores it. */
  lemma StepSkipped(request: AccessRequest, remoteAddress: string, items: seq<SM.ServiceItem>,
                    ids: seq<Id>, names: set<string>, i: nat)
    requires |ids| == |items| && i < |items| && Reached(items, names, i) == i
    requires items[i].name !in names
    ensures Reached(items, names, i + 1) == i + 1
    ensures Requestable(items, names, i + 1) == Requestable(items, names, i)
    ensures NewPending(request, remoteAddress, items, ids, names, i + 1)
      == NewPending(request, remoteAddress, items, ids, names, i)
  {
  }

  /** The notifications a request sends: one `pending.new` per accepted item, in order. */
  function NewNotes(request: AccessRequest, remoteAddress: string, accepted: seq<SM.ServiceItem>): seq<Notification> {
    if |accepted| == 0 then []
    else NewNotes(request, remoteAddress, accepted[..|accepted| - 1])
         + [NewNote(request, remoteAddress, accepted[|accepted| - 1])]
  }

  /** One note per accepted item, in the same order. */
  lemma {:induction false} NewNotesElements(request: AccessRequest, remoteAddress: string, accepted: seq<SM.ServiceItem>)
    ensures |NewNotes(request, remoteAddress, accepted)| == |accepted|
    ensures forall k :: 0 <= k < |accepted| ==>
      NewNotes(request, remoteAddress, accepted)[k] == NewNote(request, remoteAddress, accepted[k])
  {
    if |accepted| > 0 {
      NewNotesElements(request, remoteAddress, accepted[..|accepted| - 1]);
    }
  }

  lemma UnionUpdate<K, V>(a: map<K, V>, b: map<K, V>, k: K, v: V)
    ensures a + b[k := v] == (a + b)[k := v]
  {
  }

  /** Accepting one more item sends one more note. */
  lemma NotesStep(request: AccessRequest, remoteAddress: string, accepted: seq<SM.ServiceItem>, item: SM.ServiceItem)
    ensures NewNotes(request, remoteAddress, accepted + [item])
      == NewNotes(request, remoteAddress, accepted) + [NewNote(request, remoteAddress, item)]
  {
    assert (accepted + [item])[..|accepted|] == accepted;
  }

  /** One accepted item: its pending record is inserted under `id` and, only when the insert
      succeeds, its `pending.new` notification is sent. The insert fails exactly for an expiry wider
      than BSON's integers. */
  method PendItem(db: MongoDb, events: Events, request: AccessRequest, remoteAddress: string,
                  item: SM.ServiceItem, id: Id)
    returns (stored: bool)
    requires db.Valid() && db.Fresh(id) && ValidAccessRequest(request)
    modifies db`pending, events`sent
    ensures db.Valid()
    ensures stored == StorableExpiry(item.expiry)
    ensures stored ==> && db.pending == old(db.pending)[id := PendingRecord(request, remoteAddress, item)]
                       && events.sent == old(events.sent) + [NewNote(request, remoteAddress, item)]
    ensures !stored ==> db.pending == old(db.pending) && events.sent == old(events.sent)
  {
    var created := db.CreatePendingConnection(id, remoteAddress, Some(item), StoredContacts(request.contactMethods),
                                              request.note, request.lat, request.lon);
    stored := created.Ok?;
    if stored {
      events.Trigger(NewNote(request, remoteAddress, item));
    }
  }

  /** The loop over the requested items: each one whose name is in `names` is stored and announced
      in turn, until an item cannot be stored. `complete` says whether every item was reached;
      `accepted` lists the items stored. */
  method PendAll(db: MongoDb, events: Events, request: AccessRequest, remoteAddress: string,
                 items: seq<SM.ServiceItem>, names: set<string>, newIds: seq<Id>)
    returns (accepted: seq<SM.ServiceItem>, complete: bool)
    requires db.Valid() && ValidAccessRequest(request)
    requires |newIds| == |items| && DistinctIds(newIds)
    requires forall k :: 0 <= k < |newIds| ==> db.Fresh(newIds[k])
    modifies db`pending, events`sent
    ensures db.Valid()
    ensures complete <==> Reached(items, names, |items|) == |items|
    ensures accepted == Requestable(items, names, Reached(items, names, |items|))
    ensures db.pending == old(db.pending) + NewPending(request, remoteAddress, items, newIds, names,
                                                       Reached(items, names, |items|))
    ensures events.sent == old(events.sent) + NewNotes(request, remoteAddress, accepted)
  {
    accepted := [];
    var i := 0;
    while i < |items|
      invariant 0 <= i <= |items|
      invariant db.Valid()
      invariant Reached(items, names, i) == i
      invariant accepted == Requestable(items, names, i)
      invariant db.pending == old(db.pending) + NewPending(request, remoteAddress, items, newIds, names, i)
      invariant events.sent == old(events.sent) + NewNotes(request, remoteAddress, accepted)
      invariant db.allowed == old(db.allowed) && db.ignored == old(db.ignored)
      invariant forall k :: i <= k < |newIds| ==> newIds[k] !in db.pending
    {
      var item := items[i];
      if item.name in names {
        var stored := PendItem(db, events, request, remoteAddress, item, newIds[i]);
        if !stored {
          ReachedStops(items, names, i, |items|);
          return accepted, false;
        }
        StepStored(request, remoteAddress, items, newIds, names, i);
        UnionUpdate(old(db.pending), NewPending(request, remoteAddress, items, newIds, names, i),
                    newIds[i], PendingRecord(request, remoteAddress, item));
        NotesStep(request, remoteAddress, accepted, item);
        accepted := accepted + [item];
      } else {
        StepSkipped(request, remoteAddress, items, newIds, names, i);
      }
      forall k | i + 1 <= k < |newIds|
        ensures newIds[k] !in db.pending
      {
        assert newIds[k] != newIds[i];
      }
      i := i + 1;
    }
    complete := true;
  }

  /** POST /request-access: every requested item whose name is in the catalogue gets a pending record
      for the caller's address and a `pending.new` notification; items naming no service are skipped.
      An accepted item whose record cannot be inserted ends the request with 500 there, keeping what
      the items before it stored and sent. When no item was accepted the request fails with 400
      (records are only ever added for accepted items, so nothing was stored); otherwise the
      accepted items are returned. */
  method RequestAccessLanding(db: MongoDb, events: Events, accessRequest: AccessRequest,
                              remoteAddress: string, newIds: seq<Id>)
    returns (r: Result<RequestAccessResponse>)
    requires db.Valid() && ValidAccessRequest(accessRequest)
    requires |newIds| == |Requested(accessRequest.services)| && DistinctIds(newIds)
    requires forall k :: 0 <= k < |newIds| ==> db.Fresh(newIds[k])
    modifies db`pending, events`sent
    ensures db.Valid()
    ensures var items := Requested(accessRequest.services);
      var names := CatalogueNames(db.services);
      var reached := Reached(items, names, |items|);
      && db.pending == old(db.pending) + NewPending(accessRequest, remoteAddress, items, newIds, names, reached)
      && events.sent == old(events.sent) + NewNotes(accessRequest, remoteAddress,
                                                    Requestable(items, names, reached))
    ensures var items := Requested(accessRequest.services);
      Reached(items, CatalogueNames(db.services), |items|) < |items| ==> r == Err(InternalError)
    ensures var items := Requested(accessRequest.services);
      var names := CatalogueNames(db.services);
      Reached(items, names, |items|) == |items| && Requestable(items, names, |items|) == [] ==>
        r == Err(BadRequest) && db.pending == old(db.pending)
    ensures var items := Requested(accessRequest.services);
      var names := CatalogueNames(db.services);
      var accepted := Requestable(items, names, |items|);
      Reached(items, names, |items|) == |items| && accepted != [] ==>
        r == Ok(RequestAccessResponse(remoteAddress, accepted, ReceivedMessage))
  {
    var userRequestedServices := Requested(accessRequest.services);
    var names := CatalogueNames(db.services);
    var servicesAllowedToRequest, complete :=
      PendAll(db, events, accessRequest, remoteAddress, userRequestedServices, names, newIds);
    if !complete {
      return Err(InternalError);
    }
    if |servicesAllowedToRequest| == 0 {
      NewPendingCount(accessRequest, remoteAddress, userRequestedServices, newIds, names, |userRequestedServices|);
      assert NewPending(accessRequest, remoteAddress, userRequestedServices, newIds, names, |userRequestedServices|) == map[];
      return Err(BadRequest);
    }
    r := Ok(RequestAccessResponse(remoteAddress, servicesAllowedToRequest, ReceivedMessage));
  }
}
