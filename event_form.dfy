/**
 * Creating an event (`frontend/screens/EventForm.js`): the server creates the event
 * first, and only the document it answers with is copied into the local mirror, keyed
 * by the server's `_id`.
 */
module EventForm {
  import opened Js
  import LocalStore
  import ServerStore
  import Session
  import opened Network

  /** `onFormSubmit` after the form's validation, which demands a title and a description.
      Without a logged-in user nothing is sent. `newId` is the id the server's database
      gives the new document; the owner is whoever the token names, whatever `user` the
      payload carries. */
  method OnFormSubmit(user: Option<Session.SessionUser>, title: string, description: string,
                      startDate: string, endDate: string, newId: ServerStore.Id,
                      link: Link, server: ServerStore.EventStore, db: LocalStore.LocalDb)
    returns (r: Ending)
    requires title != "" && description != "" && startDate != "" && endDate != ""
    requires server.Valid() && db.Valid() && newId !in server.events
    modifies server, db
    ensures server.Valid() && db.Valid() && server.users == old(server.users) && db.users == old(db.users)
    ensures r == Rejected <==> user.None?
    ensures r == Done || r == Rejected || r == Failed
    ensures r == Rejected ==> server.events == old(server.events) && db.events == old(db.events)
    ensures !Authorized(link) ==> server.events == old(server.events) && db.events == old(db.events)
    ensures r == Failed && Authorized(link) ==>
      // the server event exists, but the local insert met a row with the same id
      newId in server.events && old(db.HasEvent(newId)) && db.events == old(db.events)
    ensures r == Done ==>
      Authorized(link)
      && server.events == old(server.events)[newId := ServerStore.EventDoc(title, description, startDate, endDate,
                                                                          link.caller.value, [], [], [])]
      && db.events == old(db.events) + [LocalStore.NewRow(newId, title, description, startDate, endDate,
                                                          link.caller.value, [], [], [])]
      && db.HasEvent(newId)
      && Mirrors(server.events[newId], db.events[LocalStore.FindEvent(db.events, newId)])
      && db.GetParticipantsLocal(newId) == [] && db.GetImagesLocal(newId) == [] && db.GetFilesLocal(newId) == []
  {
    if user.None? {
      return Rejected;
    }
    if !Authorized(link) {
      return Failed;
    }
    var status := server.CreateEvent(link.caller.value, newId, Some(title), Some(description), Some(startDate), Some(endDate));
    if status != 201 {
      return Failed;
    }
    var created := server.events[newId];
    // the created document's three lists, all empty
    var ok := db.InsertEvent(newId, created.title, created.description, created.startDate, created.endDate,
                             created.owner, [], [], []);
    if !ok {
      return Failed;
    }
    LocalStore.InsertedRowReadsBack(newId, created.title, created.description, created.startDate, created.endDate,
                                    created.owner, [], [], [], db.users);
    return Done;
  }
}
