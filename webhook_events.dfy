/** The webhook triggers the handlers call after a lifecycle step. Sending the configured HTTP
    request is not modelled; each trigger is recorded, in order, with what it was handed. */
module WebhookEvents {
  import opened Wrappers
  import SM = ServiceModels
  import PM = PendingModels
  import AM = AllowedModels

  datatype Notification =
    | PendingNewNote(ipAddress: string, service: SM.ServiceItem,
                     contactMethods: PM.ContactMethodsRequest, note: Option<string>)
    | PendingAcceptedNote(granted: AM.AllowedConnection)
    | PendingDeniedNote(request: PM.PendingConnection)

  class Events {
    var sent: seq<Notification>

    constructor ()
      ensures sent == []
    {
      sent := [];
    }

    method Trigger(n: Notification)
      modifies this`sent
      ensures sent == old(sent) + [n]
    {
      sent := sent + [n];
    }
  }
}
