/** The admin handlers for webhook configs: at most one config per event. */
module WebhookRoutes {
  import opened Wrappers
  import opened Collections
  import WM = WebhookModels
  import opened Store

  const DeletedMessage := "The webhook has been successfully deleted!"
  const ModifiedMessage := "The webhook has been successfully modified!"

  datatype DeleteWebhookResponse = DeleteWebhookResponse(event: WM.Event, message: string)

  datatype ModifyWebhookResponse = ModifyWebhookResponse(
    event: WM.Event,
    httpMethod: WM.HttpMethod,
    url: string,
    headers: Option<WM.Fields>,
    queryParams: Option<WM.Fields>,
    cookies: Option<WM.Fields>,
    body: Option<string>,
    message: string)

  /** The modify response read off the updated document; a missing document would fail (500). */
  function ModifyResponseOf(updated: Option<WM.HTTPRequest>): (r: Result<ModifyWebhookResponse>)
    ensures r.Ok? <==> updated.Some?
    ensures r.Err? ==> r.error == InternalError
    ensures r.Ok? ==> var w := updated.value;
      && r.value.event == w.event && r.value.httpMethod == w.httpMethod && r.value.url == w.url
      && r.value.headers == w.headers && r.value.queryParams == w.queryParams
      && r.value.cookies == w.cookies && r.value.body == w.body && r.value.message == ModifiedMessage
  {
    match updated
    case None => Err(InternalError)
    case Some(w) => Ok(ModifyWebhookResponse(w.event, w.httpMethod, w.url, w.headers, w.queryParams,
                                             w.cookies, w.body, ModifiedMessage))
  }

  /** POST /webhook/add-webhook: 409 and no change when the event already has a config; otherwise
      the config is stored and echoed with the fixed message. Event uniqueness is preserved. */
  method CreateWebhook(db: MongoDb, requestPayload: WM.HTTPRequest)
    returns (r: Result<WM.CreateWebhookResponse>)
    modifies db`webhooks
    ensures old(db.GetWebhook(requestPayload.event)).Some? ==>
      r == Err(Conflict) && db.webhooks == old(db.webhooks)
    ensures old(db.GetWebhook(requestPayload.event)).None? ==>
      && r == Ok(WM.CreateWebhookResponse(requestPayload, WM.CreatedMessage))
      && db.webhooks == old(db.webhooks) + [requestPayload]
      && db.GetWebhook(requestPayload.event) == Some(requestPayload)
    ensures Distinct(old(db.webhooks), WM.EventOf) ==> Distinct(db.webhooks, WM.EventOf)
  {
    var eventDocument := db.GetWebhook(requestPayload.event);
    if eventDocument.Some? {
      return Err(Conflict);
    }
    if Distinct(db.webhooks, WM.EventOf) {
      AppendKeepsDistinct(db.webhooks, WM.EventOf, requestPayload);
    }
    db.CreateWebhookRequest(requestPayload);
    r := Ok(WM.CreateWebhookResponse(requestPayload, WM.CreatedMessage));
  }

  /** DELETE /webhook/remove-webhook: 404 when the event has no config; otherwise the config is
      deleted and the event echoed. With unique events, no config for the event remains. */
  method RemoveWebhook(db: MongoDb, event: WM.Event) returns (r: Result<DeleteWebhookResponse>)
    modifies db`webhooks
    ensures old(db.GetWebhook(event)).None? ==> r == Err(NotFound) && db.webhooks == old(db.webhooks)
    ensures old(db.GetWebhook(event)).Some? ==>
      && r == Ok(DeleteWebhookResponse(event, DeletedMessage))
      && db.webhooks == DeleteOne(old(db.webhooks), WM.EventOf, event)
      && |db.webhooks| == |old(db.webhooks)| - 1
    ensures Distinct(old(db.webhooks), WM.EventOf) ==>
      Distinct(db.webhooks, WM.EventOf) && db.GetWebhook(event).None?
  {
    var eventDocument := db.GetWebhook(event);
    if eventDocument.None? {
      return Err(NotFound);
    }
    if Distinct(db.webhooks, WM.EventOf) {
      DeleteKeepsDistinct(db.webhooks, WM.EventOf, event);
    }
    db.DeleteWebhook(event);
    r := Ok(DeleteWebhookResponse(event, DeletedMessage));
  }

  /** PATCH /webhook/modify-webhook: 404 when the event has no config; otherwise the non-null fields
      of the request replace the stored ones and the updated config is returned. The event key never
      changes. */
  method ModifyWebhook(db: MongoDb, requestPayload: WM.WebhookUpdate) returns (r: Result<ModifyWebhookResponse>)
    modifies db`webhooks
    ensures old(db.GetWebhook(requestPayload.event)).None? ==>
      r == Err(NotFound) && db.webhooks == old(db.webhooks)
    ensures old(db.GetWebhook(requestPayload.event)).Some? ==>
      var i := FirstIndex(old(db.webhooks), WM.EventOf, requestPayload.event).value;
      var w := WM.ApplyUpdate(old(db.webhooks)[i], requestPayload);
      && w.event == requestPayload.event
      && db.webhooks == old(db.webhooks)[i := w]
      && r == Ok(ModifyWebhookResponse(w.event, w.httpMethod, w.url, w.headers, w.queryParams,
                                       w.cookies, w.body, ModifiedMessage))
    ensures Distinct(old(db.webhooks), WM.EventOf) ==> Distinct(db.webhooks, WM.EventOf)
  {
    var eventDocument := db.GetWebhook(requestPayload.event);
    if eventDocument.None? {
      return Err(NotFound);
    }
    var updatedDocument := db.ModifyWebhook(requestPayload.event, requestPayload);
    r := ModifyResponseOf(updatedDocument);
  }
}
