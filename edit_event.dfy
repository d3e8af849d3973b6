/**
 * Editing an event (`frontend/screens/EditEventModal.js`): with the backend flag set the
 * server is updated first and a failure there stops the handler; the local row is
 * rewritten in every case the handler gets that far.
 */
module EditEvent {
  import opened Js
  import LocalStore
  import ServerStore
  import opened Network

  /** `onFormSubmit` after the form's validation, which demands a title and a description;
      the dates are ISO strings and never empty. A missing event id throws before any
      write. */
  method OnFormSubmit(eventId: string, title: string, description: string, startDate: string, endDate: string,
                      backendActive: bool, link: Link, server: ServerStore.EventStore, db: LocalStore.LocalDb)
    returns (r: Ending)
    requires title != "" && description != "" && startDate != "" && endDate != ""
    requires server.Valid() && db.Valid()
    modifies server, db
    ensures server.Valid() && db.Valid() && server.users == old(server.users) && db.users == old(db.users)
    ensures r == Rejected <==> eventId == ""
    ensures r == Done || r == Rejected || r == Failed
    ensures r != Done ==> server.events == old(server.events) && db.events == old(db.events)
    ensures r == Failed <==>
      (eventId != "" && backendActive &&
       !(Authorized(link) && eventId in old(server.events) && old(server.events)[eventId].owner == link.caller.value))
    ensures r == Done && !backendActive ==> server.events == old(server.events)
    ensures r == Done && backendActive ==>
      var e := old(server.events)[eventId];
      eventId in old(server.events)
      && server.events == old(server.events)[eventId := e.(title := title, description := description,
                                                         startDate := startDate, endDate := endDate)]
    ensures r == Done ==>
      var i := LocalStore.FindEvent(old(db.events), eventId);
      db.events == if i < 0 then old(db.events)
                   else old(db.events)[i := old(db.events)[i].(title := title, description := description,
                                                               startDate := startDate, endDate := endDate)]
    ensures r == Done && backendActive ==>
      var i := LocalStore.FindEvent(old(db.events), eventId);
      i >= 0 && old(Mirrors(server.events[eventId], db.events[i])) ==> Mirrors(server.events[eventId], db.events[i])
  {
    if eventId == "" {
      return Rejected;
    }
    if backendActive {
      if !Authorized(link) {
        return Failed;
      }
      var status := server.UpdateEvent(link.caller.value, eventId, Some(title), Some(description), Some(startDate), Some(endDate));
      if status != 200 {
        return Failed;
      }
    }
    db.UpdateEventLocal(eventId, title, description, startDate, endDate);
    return Done;
  }
}
