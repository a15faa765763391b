/** The admin handlers for the service catalogue. */
module ServiceRoutes {
  import opened Wrappers
  import opened Collections
  import SM = ServiceModels
  import opened Store

  const ServiceDeletedMessage := "The service has been deleted!"

  /** An edit body: every field optional. */
  datatype ServiceEditRequest = ServiceEditRequest(
    name: Option<string>,
    description: Option<string>,
    internalAddress: Option<string>,
    port: Option<int>,
    protocol: Option<SM.Protocol>)

  /** The length limits of `ServiceEditRequestModel`. */
  predicate ValidEditRequest(e: ServiceEditRequest) {
    && (e.name.Some? ==> |e.name.value| <= SM.MaxFieldLength)
    && (e.description.Some? ==> |e.description.value| <= SM.MaxFieldLength)
  }

  datatype DeleteServiceResponse = DeleteServiceResponse(service: string, message: string)

  /** Python truthiness of an optional string: present and non-empty. */
  predicate Truthy(s: Option<string>) {
    s.Some? && s.value != ""
  }

  /** The field merge of the edit handler: a field whose new value is truthy replaces the stored one,
      so an empty string or a port of 0 counts as not supplied; an address or protocol, once given,
      is always truthy. */
  function MergeEdit(found: SM.ServiceResponse, edit: ServiceEditRequest): (r: SM.ServiceResponse)
    ensures r.name == (if Truthy(edit.name) then edit.name.value else found.name)
    ensures r.description == (if Truthy(edit.description) then edit.description else found.description)
    ensures r.internalAddress == (if edit.internalAddress.Some? then edit.internalAddress.value
                                  else found.internalAddress)
    ensures r.port == (if edit.port.Some? && edit.port.value != 0 then edit.port.value else found.port)
    ensures r.protocol == (if edit.protocol.Some? then edit.protocol.value else found.protocol)
    ensures SM.ValidService(found) && ValidEditRequest(edit) ==> SM.ValidService(r)
  {
    SM.ServiceResponse(
      if Truthy(edit.name) then edit.name.value else found.name,
      if Truthy(edit.description) then edit.description else found.description,
      match edit.internalAddress case Some(a) => a case None => found.internalAddress,
      match edit.port case Some(p) => (if p != 0 then p else found.port) case None => found.port,
      match edit.protocol case Some(q) => q case None => found.protocol)
  }

  /** An edit that supplies nothing truthy leaves the entry as it was. */
  lemma EmptyEditKeepsService(found: SM.ServiceResponse, edit: ServiceEditRequest)
    requires !Truthy(edit.name) && !Truthy(edit.description)
    requires edit.internalAddress.None? && edit.protocol.None?
    requires edit.port.None? || edit.port == Some(0)
    ensures MergeEdit(found, edit) == found
  {
  }

  /** Applying the same edit twice has the effect of applying it once. */
  lemma MergeEditIdempotent(found: SM.ServiceResponse, edit: ServiceEditRequest)
    ensures MergeEdit(MergeEdit(found, edit), edit) == MergeEdit(found, edit)
  {
  }

  /** POST /service/create: 409 and no change when the name is taken; otherwise the entry is added
      and returned, unless its port is wider than BSON's integers (500, no change). Name uniqueness
      is preserved. */
  method ServiceCreate(db: MongoDb, service: SM.ServiceResponse) returns (r: Result<SM.ServiceResponse>)
    requires db.Valid() && SM.ValidService(service)
    modifies db`services
    ensures db.Valid()
    ensures old(db.GetService(service.name)).Some? ==> r == Err(Conflict) && db.services == old(db.services)
    ensures old(db.GetService(service.name)).None? && FitsBsonInt(service.port) ==>
      r == Ok(service) && db.services == old(db.services) + [service]
    ensures old(db.GetService(service.name)).None? && !FitsBsonInt(service.port) ==>
      r == Err(InternalError) && db.services == old(db.services)
    ensures Distinct(old(db.services), SM.NameOf) ==> Distinct(db.services, SM.NameOf)
  {
    var serviceFound := db.GetService(service.name);
    if serviceFound.Some? {
      return Err(Conflict);
    }
    if Distinct(db.services, SM.NameOf) {
      AppendKeepsDistinct(db.services, SM.NameOf, service);
    }
    r := db.CreateService(service.name, service.description, service.internalAddress, service.port,
                          service.protocol);
  }

  /** PATCH /service/edit/{service_name}: 404 when no entry has that name; otherwise the first entry
      with that name is overwritten with the merged fields, which are returned (500 and no change
      when the merged port is wider than BSON's integers). The new name is not checked against the
      other entries. */
  method ServiceEdit(db: MongoDb, service: ServiceEditRequest, serviceName: string)
    returns (r: Result<SM.ServiceResponse>)
    requires db.Valid() && ValidEditRequest(service) && |serviceName| <= SM.MaxFieldLength
    modifies db`services
    ensures db.Valid()
    ensures old(db.GetService(serviceName)).None? ==> r == Err(NotFound) && db.services == old(db.services)
    ensures old(db.GetService(serviceName)).Some? ==>
      var edited := MergeEdit(old(db.GetService(serviceName)).value, service);
      if FitsBsonInt(edited.port)
      then r == Ok(edited) && db.services == UpdateOne(old(db.services), SM.NameOf, serviceName, edited)
      else r == Err(InternalError) && db.services == old(db.services)
  {
    var serviceFound := db.GetService(serviceName);
    if serviceFound.None? {
      return Err(NotFound);
    }
    var edited := MergeEdit(serviceFound.value, service);
    r := db.ModifyService(serviceName, edited.description, edited.internalAddress, edited.port,
                          edited.protocol, Some(edited.name));
  }

  /** DELETE /service/delete/{service_name}: 404 when no entry has that name; otherwise the first
      such entry is removed and the name echoed. */
  method ServiceDelete(db: MongoDb, serviceName: string) returns (r: Result<DeleteServiceResponse>)
    requires db.Valid()
    modifies db`services
    ensures db.Valid()
    ensures old(db.GetService(serviceName)).None? ==> r == Err(NotFound) && db.services == old(db.services)
    ensures old(db.GetService(serviceName)).Some? ==>
      && r == Ok(DeleteServiceResponse(serviceName, ServiceDeletedMessage))
      && db.services == DeleteOne(old(db.services), SM.NameOf, serviceName)
      && |db.services| == |old(db.services)| - 1
  {
    var serviceFound := db.GetService(serviceName);
    if serviceFound.None? {
      return Err(NotFound);
    }
    db.DeleteService(serviceName);
    r := Ok(DeleteServiceResponse(serviceName, ServiceDeletedMessage));
  }
}
