/** Record shapes of a pending access request. */
module PendingModels {
  import opened Wrappers
  import SM = ServiceModels

  /** The `ServiceItem` declared beside the pending record: here `expiry` is a required integer. */
  datatype ServiceItem = ServiceItem(name: string, expiry: int)

  /** Validating a requested item's `model_dump()` against the item above, as
      `PendingConnectionDatabaseModel(service=...)` does: an item without an expiry is refused. */
  function StoredServiceAsWritten(item: SM.ServiceItem): (r: Option<ServiceItem>)
    ensures r.Some? <==> item.expiry.Some?
    ensures r.Some? ==> r.value.name == item.name && Some(r.value.expiry) == item.expiry
  {
    match item.expiry
    case None => None
    case Some(hours) => Some(ServiceItem(item.name, hours))
  }

  /** A request for permanent access cannot become a pending record under the required expiry. */
  lemma PermanentRequestRejectedAsWritten(name: string)
    ensures StoredServiceAsWritten(SM.ServiceItem(name, None)).None?
  {
  }

  const MaxNotesLength := 200

  /** How a requester can be reached, as sent in an access request. */
  datatype ContactMethodsRequest = ContactMethodsRequest(
    name: Option<string>,
    email: Option<string>,
    phoneNumber: Option<string>)

  /** How a requester can be reached, as stored: each address maps to a "notified" flag. */
  datatype ContactMethods = ContactMethods(
    name: Option<string>,
    email: map<string, bool>,
    phoneNumber: map<string, bool>)

  /** A pending access request. Its stored service carries an optional expiry (see the findings in README). */
  datatype PendingConnection = PendingConnection(
    id: Option<string>,
    ipAddress: string,
    service: Option<SM.ServiceItem>,
    contactMethods: ContactMethods,
    notes: Option<string>,
    lat: Option<real>,
    lon: Option<real>)

  predicate ValidNotes(notes: Option<string>) {
    notes.Some? ==> |notes.value| <= MaxNotesLength
  }

  predicate ValidLat(lat: Option<real>) {
    lat.Some? ==> -90.0 <= lat.value <= 90.0
  }

  predicate ValidLon(lon: Option<real>) {
    lon.Some? ==> -180.0 <= lon.value <= 180.0
  }

  /** The field constraints of `PendingConnectionDatabaseModel`. */
  predicate ValidPending(p: PendingConnection) {
    ValidNotes(p.notes) && ValidLat(p.lat) && ValidLon(p.lon)
  }
}
