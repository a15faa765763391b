# Connection lifecycle of the reverse-proxy access manager

This project models the core of an access-request broker.

- A client asks the public API for access to named internal services. Each requested service that is in the catalogue becomes a *pending connection*.
- An administrator uses the private API to act on these connections:
  - accept one, which turns it into an *allowed connection* with an optional expiry instant;
  - deny one, optionally also recording it as *ignored*;
  - revoke an allowed connection;
  - remove an ignored one ("unignore").
- The administrator also maintains the service catalogue and one webhook configuration per lifecycle event.
- Lifecycle steps trigger webhook notifications.

The database helper `MongoDb` is the class `Store.MongoDb`. Its five collections are fields:

- The pending, allowed and ignored connections are maps keyed by the document `_id`, in the lower-case hexadecimal form `str(ObjectId)` prints.
- The service catalogue and the webhook configurations are sequences. They are searched by a field, and `find_one` returns the first match in natural order.

The route handlers are methods over that store and over the notification trace `WebhookEvents.Events`. Each handler's contract states:

- its HTTP error (400, 404, 409 or 500);
- the exact new contents of every collection it touches;
- the notifications it triggers;
- its response.

Pure parts are functions with lemmas about them. These cover:

- the object-id validator and the hexadecimal form of ids;
- the expiry calculation;
- the Pydantic models;
- the field merge of a service edit and of a webhook update;
- the per-service filtering of an access request.

The `Scenarios` module states and proves whole lifecycles against a fresh store. It proves, for example, that a second accept, deny, revoke or unignore of the same id answers 404, and that a revoke naming the grant with upper-case digits finds it.

Modelling conventions:

- Object ids are strings. A fresh `_id` that the database would generate is a parameter of the operation, with a precondition that it is unused.
- A path id is looked up as `ObjectId(id)` is: by the 12 bytes it spells. Upper- and lower-case digits name the same document, and the store key is the lower-case spelling (`Validators.ObjectIdKey`).
- The database stores integers in 64 bits. A service port or a requested expiry outside that range makes the insert or update raise, which answers 500 and stores nothing.
- `datetime` holds the years 1 to 9999 only. An expiry that takes the grant outside that range raises OverflowError on accept, which answers 500.
- The clock is a parameter `now`, in seconds since the epoch.
- IP addresses are opaque strings.
- Latitude and longitude are `real`.
- HTTP failures are `Wrappers.Result` values carrying the status code.

Where the code and its own field descriptions disagree, the model follows the code:

- The requested expiry is added as `timedelta(hours=…)`. One field description says seconds and another says minutes.
- Revoking a connection triggers no webhook event.
- Accepting or denying a pending record that has no service first removes the record and then fails with a server error. The same holds for an accept whose expiry overflows `datetime`: the pending record is gone and nothing is granted.

Several calls in the handlers cannot work as written, and the model gives them their evident meaning:

- the `contact_methods` keyword that `create_pending_connection` does not declare;
- the `modify_webhook` and `delete_webhook` helpers, whose bodies are `pass`;
- the missing `await` on `modify_service`;
- the `Events.pending_new` trigger in the public API, called on the class with three arguments while its stub takes only `self`, which raises TypeError after the first record is stored (the private-API triggers pass one argument, which binds to `self`, and then do nothing);
- models imported but not defined in the modules they are imported from: `DenyConnectionRequestModel` (`private-api/routes/pending.py:8`), `ContactMethodsRequestModel` and `ContactMethodsModel` (`public-api/app.py:14`), `WebhookValidator` (`public-api/app.py:10`) and the webhook request and response models (`private-api/routes/webhook.py:7-14`). Each is modelled by the fields its callers use.

## Model

| member | source | states |
|---|---|---|
| Validators.ValidateDocumentId | common_custom/common_custom/controllers/validators.py:7-16 | Accepts exactly the 24-character hexadecimal strings and returns them unchanged. Every other string fails with 400. |
| Validators.FromHexOfHex | common_custom/common_custom/controllers/mongodb.py:169-171 | Decoding the hexadecimal form of any byte string gives that byte string back. |
| Validators.HexOfFromHex | common_custom/common_custom/controllers/mongodb.py:169-171 | A lower-case even-length hexadecimal string is the hexadecimal form of its decoded bytes. |
| Validators.GeneratedIdsAreValid | common_custom/common_custom/controllers/validators.py:9 | The hexadecimal form of any 12-byte object id passes the validator. |
| Validators.ValidIdsNameOneObjectId | common_custom/common_custom/controllers/mongodb.py:169-171 | Every validated id without upper-case letters decodes to exactly 12 bytes. It is the hexadecimal form of those bytes and of no other byte string. |
| Validators.CanonicalIsOwnHex | common_custom/common_custom/controllers/mongodb.py:169-171 | An id in the printed form (24 lower-case digits) is the hexadecimal form of the bytes it spells. |
| Validators.ObjectIdKey | common_custom/common_custom/controllers/mongodb.py:169-171 | Every valid id, in either case, has a store key spelling the same 12 bytes. An id already in the printed form is its own key. |
| Validators.SameObjectId | common_custom/common_custom/controllers/mongodb.py:169-171 | Two valid ids reach the same document exactly when they spell the same bytes, whatever the case of their digits. |
| Collections.FirstIndex | common_custom/common_custom/controllers/mongodb.py:104-106 | Returns the index of the first element with the key, or None exactly when no element has it. |
| Collections.FindOne | common_custom/common_custom/controllers/mongodb.py:100-108 | Returns the first element with the key, or None exactly when there is none. |
| Collections.DeleteOne | common_custom/common_custom/controllers/mongodb.py:146-152 | Removes exactly the first element with the key and keeps the others in order. With no match the sequence is unchanged. |
| Collections.UpdateOne | common_custom/common_custom/controllers/mongodb.py:126-144 | Replaces exactly the first element with the key, keeps the length, and leaves a sequence without a match unchanged. |
| Collections.AppendKeepsDistinct | private-api/routes/webhook.py:59-67 | Appending an element whose key is not yet present keeps the keys distinct. |
| Collections.DeleteKeepsDistinct | private-api/routes/webhook.py:90 | Deleting from a sequence with distinct keys keeps them distinct and leaves no element with the deleted key. |
| ServiceModels.ParseProtocol | common_custom/common_custom/controllers/pydantic/service_models.py:11 | Accepts exactly "http" and "https". |
| ServiceModels.ProtocolRoundTrip | common_custom/common_custom/controllers/pydantic/service_models.py:11 | Parsing a protocol's name gives the protocol back. |
| ServiceModels.WithDefaults | common_custom/common_custom/controllers/pydantic/service_models.py:6-11 | Fills in 127.0.0.1, port 80 and http for omitted fields and keeps every supplied field. |
| ServiceModels.MinimalPayloadTakesDefaults | common_custom/common_custom/controllers/pydantic/service_models.py:7-11 | A payload with only a name takes the documented defaults, and the result is a valid service exactly when the name has at most 200 characters. |
| ServiceModels.ValidService | common_custom/common_custom/controllers/pydantic/service_models.py:7-8 | A catalogue entry's name, and its description when present, are at most 200 characters. |
| PendingModels.StoredServiceAsWritten | common_custom/common_custom/controllers/pydantic/pending_models.py:6-8 | The stored service model accepts a requested service only when it carries an expiry, and then keeps name and expiry. |
| PendingModels.PermanentRequestRejectedAsWritten | common_custom/common_custom/controllers/pydantic/pending_models.py:8 | A request for permanent access (no expiry) is refused by the stored model. |
| PendingModels.ValidPending | common_custom/common_custom/controllers/pydantic/pending_models.py:15-17 | A stored pending record has a note of at most 200 characters, a latitude within ±90 and a longitude within ±180. |
| AllowedModels.DeniedFromKeywords | common_custom/common_custom/controllers/pydantic/allowed_models.py:14-17 | Keyword construction reads the id only under the alias `_id`. It fails exactly when the address or service name is missing. |
| AllowedModels.DenyDropsIdAsWritten | common_custom/common_custom/controllers/mongodb.py:218-222 | The denied record built with `id=` carries no id. |
| AllowedModels.ResponseId | common_custom/common_custom/controllers/pydantic/allowed_models.py:8 | An absent id passes. A string id passes exactly when it is a valid id, and is kept. An `ObjectId` value fails with 500. |
| AllowedModels.StoredIdRejectedAsWritten | private-api/routes/connection.py:52-58 | A response built from a stored document, whose `_id` is an `ObjectId`, fails, while the same id as its string passes. |
| AllowedModels.ValidDeniedResponse | common_custom/common_custom/controllers/pydantic/allowed_models.py:21 | The deny response's message is at most 100 characters. |
| WebhookModels.DeniedAndRevokedRejectedAsWritten | common_custom/common_custom/utils/pydantic/webhook_models.py:6 | As written, the event literal rejects "pending.denied" and "connection.revoked" and accepts their concatenation. |
| WebhookModels.ParseEvent | common_custom/common_custom/utils/pydantic/webhook_models.py:6 | Accepts exactly the four event names. |
| WebhookModels.EventRoundTrip | common_custom/common_custom/utils/pydantic/webhook_models.py:6 | Parsing an event's name gives the event back. |
| WebhookModels.ParseMethod | common_custom/common_custom/utils/pydantic/webhook_models.py:8 | Accepts exactly GET, HEAD, POST, PUT and DELETE. |
| WebhookModels.MethodRoundTrip | common_custom/common_custom/utils/pydantic/webhook_models.py:8 | Parsing a method's name gives the method back. |
| WebhookModels.ApplyUpdate | private-api/routes/webhook.py:114-120 | Every supplied field replaces the stored one. Every omitted field keeps its stored value. The event never changes. |
| WebhookModels.ApplyUpdateIdempotent | private-api/routes/webhook.py:115-120 | Applying the same update twice equals applying it once. |
| WebhookModels.EmptyUpdateKeepsConfig | private-api/routes/webhook.py:115-120 | An update that supplies nothing leaves the configuration unchanged. |
| Store.ExpireAt | common_custom/common_custom/controllers/mongodb.py:196 | No expiry means permanent access. Otherwise the instant lies exactly the requested number of hours after `now` when it falls inside `datetime`'s range (years 1 to 9999), and is a 500 exactly when it does not. |
| Store.ExpireAtMonotonic | common_custom/common_custom/controllers/mongodb.py:196 | Of two grants that fit in `datetime`, the longer requested duration never ends earlier. |
| Store.OverlongExpiryFails | common_custom/common_custom/controllers/mongodb.py:196 | From any representable `now`, a duration longer than `datetime`'s whole range always fails with 500. |
| Store.MongoDb.constructor | common_custom/common_custom/controllers/mongodb.py:23-35 | Starts with all five collections empty and the store invariant established. |
| Store.MongoDb.GetDocument | common_custom/common_custom/controllers/mongodb.py:164-180 | Looks the id up by the bytes it spells. Returns 404 exactly when no document in the named collection has them, and otherwise the stored record with its id set in the printed spelling. |
| Store.MongoDb.CreatePendingConnection | common_custom/common_custom/controllers/mongodb.py:71-91 | A record that passes validation and whose expiry fits a 64-bit integer is inserted under the new id and returned with that id. Any other fails with 500 and inserts nothing. |
| Store.MongoDb.AcceptPendingConnection | common_custom/common_custom/controllers/mongodb.py:182-208 | Returns 404 with no change when no pending document has the id's bytes. Otherwise the pending record is removed. A record without a service, or whose expiry leaves `datetime`'s range, then fails with 500 and grants nothing. Any other becomes an allowed record, stored under the new id, whose expiry is the one `ExpireAt` computes. |
| Store.MongoDb.DenyPendingConnection | common_custom/common_custom/controllers/mongodb.py:210-224 | An id no pending document has fails with 500 and removes nothing: the helper does not check existence (the route checks it first). Otherwise the record is removed, and the denied record for its address, service and id is returned, or 500 when it has no service. |
| Store.MongoDb.IgnoreConnection | common_custom/common_custom/controllers/mongodb.py:226-232 | Inserts the denied record under the new id and returns it. Nothing else changes. |
| Store.MongoDb.RevokeConnection | common_custom/common_custom/controllers/mongodb.py:234-240 | Removes the allowed record with the id's bytes and returns it, or returns None with no change. |
| Store.MongoDb.UnignoreConnection | common_custom/common_custom/controllers/mongodb.py:242-248 | Removes the ignored record with the id's bytes and returns it, or returns None with no change. |
| Store.MongoDb.GetWebhook | common_custom/common_custom/controllers/mongodb.py:250-256 | Returns the first configuration for the event in collection order, or None exactly when there is none. |
| Store.MongoDb.CreateWebhookRequest | common_custom/common_custom/controllers/mongodb.py:258-264 | Appends the configuration. Nothing else changes. |
| Store.MongoDb.ModifyWebhook | private-api/routes/webhook.py:114-120 | Applies the update to the first configuration for the event and returns the updated one. Returns None with no change when there is none. |
| Store.MongoDb.DeleteWebhook | private-api/routes/webhook.py:90 | Removes the first configuration for the event. |
| Store.MongoDb.GetService | common_custom/common_custom/controllers/mongodb.py:100-108 | Returns the first catalogue entry with the name in collection order, or None exactly when there is none. |
| Store.MongoDb.CreateService | common_custom/common_custom/controllers/mongodb.py:110-124 | A valid service whose port fits a 64-bit integer is appended and returned. Any other fails with 500 and changes nothing. Every catalogue entry stays valid. |
| Store.MongoDb.ModifyService | common_custom/common_custom/controllers/mongodb.py:126-144 | An empty new name keeps the old one. A valid edited service whose port fits a 64-bit integer replaces the first entry with the old name and is returned. Any other fails with 500 and changes nothing. |
| Store.MongoDb.DeleteService | common_custom/common_custom/controllers/mongodb.py:146-152 | Removes the first entry with the name. |
| WebhookEvents.Events.Trigger | common_custom/common_custom/utils/webhook_events.py:33-50 | Records the notification at the end of the trace. |
| PendingRoutes.AcceptConnection | private-api/routes/pending.py:50-57 | Returns 400 for a malformed id and 404 for one no pending document has. Otherwise the pending record is removed; a missing service or an expiry outside `datetime`'s range then gives 500 with nothing granted and no notification. Only on success is pending.accepted triggered with the granted record that is returned. |
| PendingRoutes.DenyConnection | private-api/routes/pending.py:66-92 | Returns 400 or 404 with no change. Otherwise the record is removed and pending.denied is triggered with it, its id in the printed spelling. When asked, the denied record is added to the ignored collection. The response echoes address, service and the ignore flag. |
| ConnectionRoutes.RevokeConnection | private-api/routes/connection.py:52-58 | Returns 400 or 404 with no change; an id with upper-case digits finds the same grant. Otherwise the allowed record is removed and returned, whatever its expiry, with its id as a string, and no notification. |
| ConnectionRoutes.UnignoreConnection | private-api/routes/connection.py:80-86 | Returns 400 or 404 with no change. Otherwise the ignored record is removed and returned with its id as a string. |
| WebhookRoutes.CreateWebhook | private-api/routes/webhook.py:57-72 | Returns 409 with no change when the event already has a configuration. Otherwise the configuration is stored and becomes the one in force. At most one configuration per event is kept. |
| WebhookRoutes.RemoveWebhook | private-api/routes/webhook.py:80-95 | Returns 404 when the event has no configuration. Otherwise exactly one configuration, the first for the event, is removed and the event is echoed. When the event had at most one configuration, as `CreateWebhook` keeps it, none is left for the event. |
| WebhookRoutes.ModifyWebhook | private-api/routes/webhook.py:104-131 | Returns 404 when the event has no configuration. Otherwise only that configuration is updated and the response carries the updated fields. |
| WebhookRoutes.ModifyResponseOf | private-api/routes/webhook.py:122-131 | The response carries the updated document's event, method, URL, headers, query parameters, cookies and body and the fixed message. A missing document gives 500. |
| ServiceRoutes.MergeEdit | private-api/routes/service.py:113-120 | Each supplied truthy field replaces the stored one. An empty name or description, or port 0, keeps the stored value. The result stays a valid service. |
| ServiceRoutes.EmptyEditKeepsService | private-api/routes/service.py:115-119 | An edit that supplies nothing leaves the service unchanged. |
| ServiceRoutes.MergeEditIdempotent | private-api/routes/service.py:115-119 | Merging the same edit twice equals merging it once. |
| ServiceRoutes.ValidEditRequest | private-api/routes/service.py:31-32 | An edit's new name and description, when present, are at most 200 characters. |
| ServiceRoutes.Truthy | private-api/routes/service.py:115-119 | An optional string counts as supplied exactly when it is present and non-empty. |
| ServiceRoutes.ServiceCreate | private-api/routes/service.py:70-91 | Returns 409 with no change when the name is taken, and 500 with no change when the port does not fit a 64-bit integer. Otherwise the service is appended and returned. Distinct names stay distinct. |
| ServiceRoutes.ServiceEdit | private-api/routes/service.py:99-122 | Returns 404 when no service has the name. Otherwise the first such entry becomes the merged service, which is returned, or the request fails with 500 and no change when the merged port does not fit a 64-bit integer. |
| ServiceRoutes.ServiceDelete | private-api/routes/service.py:130-145 | Returns 404 when no service has the name. Otherwise the first such entry is removed and the name is echoed with the fixed message. |
| PublicApi.CatalogueNames | public-api/app.py:103 | A name is in the result exactly when some catalogue entry has it. |
| PublicApi.ContactEntry | public-api/app.py:116-117 | A missing or empty contact gives an empty map. Any other gives a one-entry map marking it unverified. |
| PublicApi.ValidAccessRequest | public-api/app.py:45-47 | An access request has a note of at most 200 characters and a latitude and longitude in range. |
| PublicApi.Requestable | public-api/app.py:99-112 | Never accepts more services than were requested. Its members are stated by `RequestableMembers`. |
| PublicApi.RequestableMembers | public-api/app.py:101-112 | A service is accepted exactly when it was requested and its name is in the catalogue. |
| PublicApi.CataloguedAppend | public-api/app.py:101-112 | Filtering a list extended by one item extends the filtered list by that item exactly when its name is catalogued. |
| PublicApi.RequestableIsCatalogued | public-api/app.py:101-112 | The accepted services are exactly the requested ones whose name is in the catalogue, in request order with repeats kept. |
| PublicApi.AllListedAllAccepted | public-api/app.py:101-112 | When every requested name is in the catalogue, every requested service is accepted, in order. |
| PublicApi.NewPendingKeys | public-api/app.py:101-127 | A pending record is created under the k-th new id exactly when the k-th requested service is in the catalogue. |
| PublicApi.NewPendingRecords | public-api/app.py:114-127 | Each created pending record holds the requester's address, that service, the stored contact maps, the note and the location. |
| PublicApi.NewPendingCount | public-api/app.py:101-127 | As many pending records are created as services are accepted. |
| PublicApi.NewNotesElements | public-api/app.py:129-130 | One pending.new notification is triggered per accepted service, carrying that service. |
| PublicApi.Reached | public-api/app.py:101-127 | The handler gets no further than the items it was given. |
| PublicApi.ReachedMeaning | public-api/app.py:101-127 | Every item before the point the handler reaches can be stored. If it stops early, it stops at an accepted item whose expiry does not fit a 64-bit integer. |
| PublicApi.ReachedStops | public-api/app.py:120-127 | Once an item cannot be stored, no later item is reached. |
| PublicApi.PendItem | public-api/app.py:120-130 | An accepted item is stored and announced exactly when its expiry fits a 64-bit integer. Otherwise nothing is stored or sent. |
| PublicApi.PendAll | public-api/app.py:99-130 | Stores and announces exactly the accepted items up to the first one that cannot be stored, and reports whether every item was reached. |
| PublicApi.RequestAccessLanding | public-api/app.py:93-143 | Creates exactly those pending records and notifications and keeps the store invariant. An accepted item that cannot be stored ends the request with 500, keeping what came before it. Fails with 400 and changes nothing when no requested service is in the catalogue. Otherwise returns the address and the accepted services. |
| Scenarios.RequestOne | public-api/app.py:93-143 | A single request for a catalogued service leaves exactly one pending record and one pending.new notification. |
| Scenarios.AcceptThenRevoke | common_custom/common_custom/controllers/mongodb.py:182-208 | Accept grants the service with the computed expiry (none for a permanent request), and a second accept is 404. Revoke, naming the grant in any letter case, returns it, and a second revoke is 404. |
| Scenarios.ExpiryPastDatetimeRange | common_custom/common_custom/controllers/mongodb.py:189-196 | A stored request whose expiry ends past the year 9999 cannot be accepted: the accept is 500, nothing is granted, and a second accept is 404. |
| Scenarios.DenyAndIgnore | private-api/routes/pending.py:66-92 | Deny with ignore succeeds, and a second deny or a later accept of the same id is 404. Unignore returns the ignored record with its id, and a second unignore is 404. |
| Scenarios.RepeatedRequest | public-api/app.py:105-127 | The same request sent twice leaves two pending records: duplicates are not detected. |
| Scenarios.WebhookConflict | private-api/routes/webhook.py:59-67 | A second configuration for an event is refused with 409 and the first stays in force. After removal a new one can be created. |
| Scenarios.ServiceConflict | private-api/routes/service.py:74-81 | Creating a service twice under one name is refused the second time and the catalogue holds it once. |
| Scenarios.RenameOntoTakenName | private-api/routes/service.py:104-120 | An edit may rename a service onto a name already taken; the catalogue then holds that name twice. |

## Left out

- Sending webhook requests and rendering their templates: the trigger stubs in `webhook_events.py` do nothing. A notification is recorded in a trace together with its data.
- PendingRoutes.AcceptConnection: the contract gives the final store and the final trace but not which changed first. The trace and the store are separate objects and their interleaving is not recorded. The body changes the store before it triggers, as the handler does.
- PendingRoutes.DenyConnection: as for the accept, the contract does not state that the pending record is removed before pending.denied is triggered and before the ignored record is added; the body keeps the handler's order.
- PublicApi.RequestAccessLanding: likewise, each item's record is stored before its notification is recorded, but the contract states only the final store and trace.
- Connecting to MongoDB, reading `.env`, authentication, app wiring, the timing middleware and the health endpoints: these are I/O and configuration.
- Concurrent administrator actions: each operation is modelled as atomic, as `find_one_and_delete` is.
- The list endpoints `get_pending_connections`, `get_all_connections`, `show_all_ignored_connections`, `list_services` (private and public API) and `get_all_webhooks`: they only read a whole collection. The first three return raw documents whose `_id` is an `ObjectId`, which their response models' string `id` field refuses, as in the revoke finding below. The service and webhook models have no id field, so those two lists drop the `_id` and answer normally.
- Response serialisation (JSON, datetime formatting).
- IP address parsing: addresses are opaque strings.
- Latitude and longitude are reals rather than floats.
- Store.MongoDb.CreatePendingConnection: the note length and the coordinate ranges are validated. Address parsing and Pydantic's type coercion are not modelled.
- Validators.ValidateDocumentId: `ObjectId.is_valid` also accepts 12-byte `bytes` values; only string ids reach it from the routes, so only strings are modelled.
- Validators.ValidateDocumentId: `bytes.fromhex` skips whitespace, so a 24-character string of fewer hexadecimal pairs and whitespace (for example 22 digits and two spaces) passes `ObjectId.is_valid`. The model refuses it with 400; what the driver does with the short id is not modelled.
- Store.ExpireAt: `now` is a whole number of seconds; the microseconds of `datetime.now` are not modelled.
- `private-api/routes/services.py` and the historical duplicate copies are not part of this model.
- ServiceRoutes.ServiceEdit: requires the path name to be at most 200 characters, as the path parameter declares. Longer names are refused by the framework before the handler runs.

## Findings

| source | as written | input that shows it | evidently intended | confidence | as-written member | corrected member |
|---|---|---|---|---|---|---|
| common_custom/common_custom/utils/pydantic/webhook_models.py:6 | A missing comma joins two event literals into "pending.deniedconnection.revoked" | a webhook for event "pending.denied" or "connection.revoked" is rejected | four separate events | not executed | WebhookModels.DeniedAndRevokedRejectedAsWritten | WebhookModels.EventRoundTrip |
| common_custom/common_custom/controllers/pydantic/pending_models.py:8 | The stored service requires `expiry`, while the requested service makes it optional | requesting service "svc" with no expiry fails when the pending record is validated | a request without expiry is stored and accepted as permanent access | not executed | PendingModels.PermanentRequestRejectedAsWritten | Scenarios.AcceptThenRevoke |
| private-api/routes/connection.py:52-58 | The handler returns the raw document, whose `_id` is an `ObjectId`, through a response model whose `id` field accepts only a string (the same at lines 80-86) | revoking or unignoring any existing connection: the record is deleted, then the response fails validation with 500 | the removed record is returned with its id as a string | not executed | AllowedModels.StoredIdRejectedAsWritten | ConnectionRoutes.RevokeConnection |
| common_custom/common_custom/controllers/mongodb.py:218-222 | `DeniedConnectionModel(id=...)` is ignored because the field's alias is `_id` | denying any pending id returns a denied record with no id | the denied record carries the connection id | not executed | AllowedModels.DenyDropsIdAsWritten | Store.MongoDb.DenyPendingConnection |
