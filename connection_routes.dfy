/** The admin handlers for granted and ignored connections: revoke and unignore. Neither fires a
    webhook trigger. */
module ConnectionRoutes {
  import opened Wrappers
  import V = Validators
  import AM = AllowedModels
  import opened Store

  /** DELETE /connection/revoke/{id}: reads the allowed document (404 when absent), removes it and
      returns it as it was, its id as the string the response model accepts, in the database's
      spelling; whether its expiry has passed is not checked. */
  method RevokeConnection(db: MongoDb, id: string) returns (r: Result<AM.AllowedConnection>)
    requires db.Valid()
    modifies db`allowed
    ensures db.Valid()
    ensures !V.IsObjectId(id) ==> r == Err(BadRequest) && db.allowed == old(db.allowed)
    ensures V.IsObjectId(id) ==>
      var key := V.ObjectIdKey(id);
      && (key !in old(db.allowed) ==> r == Err(NotFound) && db.allowed == old(db.allowed))
      && (key in old(db.allowed) ==>
            r == Ok(old(db.allowed)[key].(id := Some(key))) && db.allowed == old(db.allowed) - {key})
  {
    var valid := V.ValidateDocumentId(id);
    if valid.Err? {
      return Err(valid.error);
    }
    var documentPayload := db.GetDocument(id, Allowed);
    if documentPayload.Err? {
      return Err(documentPayload.error);
    }
    var _ := db.RevokeConnection(id);
    r := Ok(documentPayload.value.allowedRecord);
  }

  /** DELETE /connection/ignored/remove/{id}: reads the ignored document (404 when absent), removes
      it and returns it as it was, its id as a string. */
  method UnignoreConnection(db: MongoDb, id: string) returns (r: Result<AM.DeniedConnection>)
    requires db.Valid()
    modifies db`ignored
    ensures db.Valid()
    ensures !V.IsObjectId(id) ==> r == Err(BadRequest) && db.ignored == old(db.ignored)
    ensures V.IsObjectId(id) ==>
      var key := V.ObjectIdKey(id);
      && (key !in old(db.ignored) ==> r == Err(NotFound) && db.ignored == old(db.ignored))
      && (key in old(db.ignored) ==>
            r == Ok(old(db.ignored)[key].(id := Some(key))) && db.ignored == old(db.ignored) - {key})
  {
    var valid := V.ValidateDocumentId(id);
    if valid.Err? {
      return Err(valid.error);
    }
    var ignoredDocument := db.GetDocument(id, Ignored);
    if ignoredDocument.Err? {
      return Err(ignoredDocument.error);
    }
    var _ := db.UnignoreConnection(id);
    r := Ok(ignoredDocument.value.ignoredRecord);
  }
}
