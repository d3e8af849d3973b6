/**
 * The event details screen (`frontend/screens/EventDetailsModal.js`): the handlers that
 * write an event's participants, images and files to the server store and to the local
 * mirror. They gate actions on ownership, and each is modelled over both stores.
 */
module EventDetails {
  import opened Js
  import LocalStore
  import ServerStore
  import opened Network

  /** The base URL the client addresses the server at (`frontend/services/api.js`, without `/api`). */
  const Origin := "http://172.19.4.8:5000"

  /** An entry of the `participants` list: the server answers with `{ id, name, email }`
      objects, the local store with `{ email }` objects. */
  datatype ParticipantItem = Populated(id: string, name: string, email: string) | EmailOnly(email: string)

  function ServerItems(docs: seq<ServerStore.UserDoc>): seq<ParticipantItem> {
    seq(|docs|, k requires 0 <= k < |docs| => Populated(docs[k].id, docs[k].name, docs[k].email))
  }

  function LocalItems(emails: seq<string>): seq<ParticipantItem> {
    seq(|emails|, k requires 0 <= k < |emails| => EmailOnly(emails[k]))
  }

  /** `media.images.map(img => ({ uri: img, backendId: null }))` */
  function ServerImages(uris: seq<string>): seq<LocalStore.ImageEntry> {
    seq(|uris|, k requires 0 <= k < |uris| => LocalStore.ImageEntry(uris[k], JsValue.Null))
  }

  /** A link to an image or file the server lists, stripped of the base URL, is the stored
      path: what `handleDeleteImage` and `handleDeleteFile` send is what `getMedia` holds. */
  lemma {:induction false} RelativePathOfServerLink(path: string)
    ensures ReplaceFirst(Origin + path, Origin, "") == path
  {
    StripPrefix(Origin, path);
  }

  class EventDetails {
    /** `event._id` */
    const eventId: string
    /** `event.user?._id` */
    const ownerId: Option<ServerStore.Id>
    /** The `userId` prop: the session's `user.user_id`. */
    const userId: Option<ServerStore.Id>
    /** `isBackendActive` from the session, read when the screen renders. */
    const backendActive: bool

    var participants: seq<ParticipantItem>
    var images: seq<LocalStore.ImageEntry>
    var files: seq<string>

    constructor (eventId: string, ownerId: Option<ServerStore.Id>, userId: Option<ServerStore.Id>, backendActive: bool)
      ensures this.eventId == eventId && this.ownerId == ownerId && this.userId == userId
      ensures this.backendActive == backendActive
      ensures participants == [] && images == [] && files == []
    {
      this.eventId := eventId;
      this.ownerId := ownerId;
      this.userId := userId;
      this.backendActive := backendActive;
      participants := [];
      images := [];
      files := [];
    }

    /** `userId === event?.user?._id`; two missing ids compare equal. */
    predicate IsEventOwner() {
      userId == ownerId
    }

    /** `handleRestrictedAction`: the gate in front of delete, add and remove participant,
        delete file and edit. */
    function HandleRestrictedAction(): (allowed: bool)
      ensures allowed <==> userId == ownerId
    {
      IsEventOwner()
    }

    /** `handleDeleteEvent` (after the confirmation): the server delete, then the local one;
        a throwing server delete keeps the local row. */
    method HandleDeleteEvent(link: Link, server: ServerStore.EventStore, db: LocalStore.LocalDb)
      returns (r: Ending)
      requires server.Valid() && db.Valid()
      modifies server, db
      ensures server.Valid() && db.Valid() && server.users == old(server.users) && db.users == old(db.users)
      ensures r == Denied <==> !IsEventOwner()
      ensures r != Done ==> server.events == old(server.events) && db.events == old(db.events)
      ensures r == Done && eventId != "" ==>
        Authorized(link) && eventId in old(server.events) && old(server.events)[eventId].owner == link.caller.value
        && server.events == old(server.events) - {eventId}
        && db.events == LocalStore.EventDeleted(old(db.events), eventId) && !db.HasEvent(eventId)
      ensures r == Done && eventId == "" ==> server.events == old(server.events) && db.events == old(db.events)
      ensures r == Failed <==>
        (IsEventOwner() && eventId != "" &&
         !(Authorized(link) && eventId in old(server.events) && old(server.events)[eventId].owner == link.caller.value))
    {
      if !HandleRestrictedAction() {
        return Denied;
      }
      if eventId != "" {
        if !Authorized(link) {
          return Failed;
        }
        var status := server.DeleteEvent(link.caller.value, eventId);
        if status != 200 {
          return Failed;
        }
        db.DeleteEventLocal(eventId);
      }
      return Done;
    }

    /** `fetchParticipants`: from the server when the backend flag is set, from the local
        mirror otherwise; a throwing request leaves the list as it was. */
    method FetchParticipants(link: Link, server: ServerStore.EventStore, db: LocalStore.LocalDb)
      requires db.Valid()
      modifies this
      ensures images == old(images) && files == old(files)
      ensures backendActive ==>
        participants ==
          if Authorized(link) && server.GetParticipants(eventId).Ok?
          then ServerItems(server.GetParticipants(eventId).value.1) else old(participants)
      ensures !backendActive ==> participants == LocalItems(db.GetParticipantsLocal(eventId))
    {
      if backendActive {
        if Authorized(link) {
          var reply := server.GetParticipants(eventId);
          if reply.Ok? {
            participants := ServerItems(reply.value.1);
          }
        }
      } else {
        participants := LocalItems(db.GetParticipantsLocal(eventId));
      }
    }

    /** `handleAddParticipant`: owner only, a blank email is refused before any call, then
        the server add, and only after it succeeded the local append. */
    method HandleAddParticipant(email: string, link: Link, server: ServerStore.EventStore, db: LocalStore.LocalDb)
      returns (r: Ending)
      requires server.Valid() && db.Valid()
      modifies server, db
      ensures server.Valid() && db.Valid() && server.users == old(server.users) && db.users == old(db.users)
      ensures r == Denied <==> !IsEventOwner()
      ensures r == Rejected <==> IsEventOwner() && IsBlank(email)
      ensures r != Done ==> server.events == old(server.events) && db.events == old(db.events)
      ensures r == Done ==>
        Authorized(link) && eventId != "" && eventId in old(server.events) && eventId in server.events
        && old(server.events)[eventId].owner == link.caller.value
        && (var e := old(server.events)[eventId];
            server.events == old(server.events)[eventId := e.(participants :=
              e.participants + ServerStore.NewIds(ServerStore.MatchingIds(server.users, [email]), e.participants))])
        && (forall k :: 0 <= k < |server.users| && server.users[k].email in [email] ==>
              server.users[k].id in server.events[eventId].participants)
        && db.events == LocalStore.ParticipantAdded(old(db.events), eventId, email)
        && db.GetParticipantsLocal(eventId) ==
             old(db.GetParticipantsLocal(eventId)) + if old(db.HasEvent(eventId)) then [email] else []
    {
      if !HandleRestrictedAction() {
        return Denied;
      }
      if IsBlank(email) {
        return Rejected;
      }
      if !Authorized(link) {
        return Failed;
      }
      var status := server.AddParticipants(link.caller.value, eventId, Some([email]));
      if status != 200 {
        return Failed;
      }
      if eventId != "" {
        db.AddParticipantLocal(eventId, email);
      }
      return Done;
    }

    /** `handleRemoveParticipant`: owner only; the local removal runs only after the server
        removal succeeded. */
    method HandleRemoveParticipant(participantEmail: string, link: Link, server: ServerStore.EventStore,
                                   db: LocalStore.LocalDb)
      returns (r: Ending)
      requires server.Valid() && db.Valid()
      modifies server, db
      ensures server.Valid() && db.Valid() && server.users == old(server.users) && db.users == old(db.users)
      ensures r == Denied <==> !IsEventOwner()
      ensures r != Done ==> server.events == old(server.events) && db.events == old(db.events)
      ensures r == Done ==>
        Authorized(link) && eventId in old(server.events) && eventId in server.events
        && old(server.events)[eventId].owner == link.caller.value
        && (var e := old(server.events)[eventId];
            server.events == old(server.events)[eventId := e.(participants :=
              ServerStore.Kept(server.users, e.participants, participantEmail))])
        && (forall id :: id in server.events[eventId].participants ==>
              ServerStore.Lookup(server.users, id).Some? && ServerStore.Lookup(server.users, id).value.email != participantEmail)
      ensures r == Done && eventId == "" ==> db.events == old(db.events)
      ensures r == Done && eventId != "" ==>
        db.events == LocalStore.ParticipantRemoved(old(db.events), eventId, participantEmail)
        && participantEmail !in db.GetParticipantsLocal(eventId)
        && forall p :: p in old(db.GetParticipantsLocal(eventId)) && p != participantEmail ==> p in db.GetParticipantsLocal(eventId)
    {
      if !HandleRestrictedAction() {
        return Denied;
      }
      if !Authorized(link) {
        return Failed;
      }
      var status := server.RemoveParticipant(link.caller.value, eventId, participantEmail);
      if status != 200 {
        return Failed;
      }
      if eventId != "" {
        db.RemoveParticipantLocal(eventId, participantEmail);
      }
      return Done;
    }

    /** `openGallery` with a picked image: uploaded first when the backend flag is set, then
        added to the local mirror without a backendId. No owner gate. `storedName` is the
        name the upload middleware gives the file. */
    method OpenGallery(imageUri: string, storedName: string, link: Link, server: ServerStore.EventStore,
                       db: LocalStore.LocalDb)
      returns (r: Ending)
      requires server.Valid() && db.Valid()
      modifies server, db
      ensures server.Valid() && db.Valid() && server.users == old(server.users) && db.users == old(db.users)
      ensures r == Done || r == Failed
      ensures r == Failed ==> backendActive && server.events == old(server.events) && db.events == old(db.events)
      ensures r == Done && backendActive ==>
        eventId in old(server.events)
        && server.events == old(server.events)[eventId := old(server.events)[eventId].(
             images := old(server.events)[eventId].images + ["/uploads/images/" + storedName])]
      ensures r == Done && !backendActive ==> server.events == old(server.events)
      ensures r == Done ==>
        db.events == (if eventId != "" then LocalStore.ImageAdded(old(db.events), eventId, LocalStore.ImageEntry(imageUri, Undefined))
                      else old(db.events))
        && db.GetImagesLocal(eventId) ==
             old(db.GetImagesLocal(eventId))
             + if eventId != "" && old(db.HasEvent(eventId)) then [LocalStore.ImageEntry(imageUri, Undefined)] else []
    {
      if backendActive {
        if !Authorized(link) {
          return Failed;
        }
        var status := server.UploadImage(eventId, Some(storedName));
        if status != 200 {
          return Failed;
        }
      }
      if eventId != "" {
        db.AddImageLocal(eventId, imageUri, Undefined);
      }
      return Done;
    }

    /** `handleDeleteImage` (after the confirmation): owner only; with the backend flag set
        the server delete gets the link without the base URL; then the local delete by
        backendId, and the screen's list drops the same entries. */
    method HandleDeleteImage(imageUri: string, backendId: JsValue, link: Link, server: ServerStore.EventStore,
                             db: LocalStore.LocalDb)
      returns (r: Ending)
      requires server.Valid() && db.Valid()
      modifies this, server, db
      ensures server.Valid() && db.Valid() && server.users == old(server.users) && db.users == old(db.users)
      ensures participants == old(participants) && files == old(files)
      ensures r == Denied <==> !IsEventOwner()
      ensures r != Done ==> server.events == old(server.events) && db.events == old(db.events) && images == old(images)
      ensures r != Rejected && (r == Failed ==> backendActive)
      ensures r == Done && backendActive ==>
        var path := ReplaceFirst(imageUri, Origin, "");
        eventId in old(server.events) && path in old(server.events)[eventId].images
        && (var e := old(server.events)[eventId];
            server.events == old(server.events)[eventId := e.(images := RemoveAt(e.images, IndexOf(e.images, path)))])
      ensures r == Done && !backendActive ==> server.events == old(server.events)
      ensures r == Done && eventId == "" ==> db.events == old(db.events) && images == old(images)
      ensures r == Done && eventId != "" ==>
        db.events == LocalStore.ImagesDeleted(old(db.events), eventId, backendId)
        && db.GetImagesLocal(eventId) == LocalStore.WithoutBackendId(old(db.GetImagesLocal(eventId)), backendId)
        && images == LocalStore.WithoutBackendId(old(images), backendId)
    {
      if !IsEventOwner() {
        return Denied;
      }
      if backendActive {
        var relativePath := ReplaceFirst(imageUri, Origin, "");
        if !Authorized(link) {
          return Failed;
        }
        var status := server.DeleteImage(eventId, relativePath);
        if status != 200 {
          return Failed;
        }
      }
      if eventId != "" {
        db.DeleteImageLocal(eventId, backendId);
        images := LocalStore.WithoutBackendId(images, backendId);
      }
      return Done;
    }

    /** The evident intent of `handleDeleteImage` for the local mirror: remove the image the
        owner pressed, found by its uri, and keep every other entry. */
    method HandleDeleteImageByUri(imageUri: string, link: Link, server: ServerStore.EventStore, db: LocalStore.LocalDb)
      returns (r: Ending)
      requires server.Valid() && db.Valid()
      modifies this, server, db
      ensures server.Valid() && db.Valid() && server.users == old(server.users) && db.users == old(db.users)
      ensures participants == old(participants) && files == old(files)
      ensures r == Denied <==> !IsEventOwner()
      ensures r != Done ==> server.events == old(server.events) && db.events == old(db.events) && images == old(images)
      ensures r != Rejected && (r == Failed ==> backendActive)
      ensures r == Done && backendActive ==>
        var path := ReplaceFirst(imageUri, Origin, "");
        eventId in old(server.events) && path in old(server.events)[eventId].images
        && (var e := old(server.events)[eventId];
            server.events == old(server.events)[eventId := e.(images := RemoveAt(e.images, IndexOf(e.images, path)))])
      ensures r == Done && !backendActive ==> server.events == old(server.events)
      ensures r == Done && eventId == "" ==> db.events == old(db.events) && images == old(images)
      ensures r == Done && eventId != "" ==>
        db.events == LocalStore.ImagesDeletedByUri(old(db.events), eventId, imageUri)
        && db.GetImagesLocal(eventId) == LocalStore.WithoutUri(old(db.GetImagesLocal(eventId)), imageUri)
        && images == LocalStore.WithoutUri(old(images), imageUri)
    {
      if !IsEventOwner() {
        return Denied;
      }
      if backendActive {
        var relativePath := ReplaceFirst(imageUri, Origin, "");
        if !Authorized(link) {
          return Failed;
        }
        var status := server.DeleteImage(eventId, relativePath);
        if status != 200 {
          return Failed;
        }
      }
      if eventId != "" {
        db.DeleteImageLocalByUri(eventId, imageUri);
        images := LocalStore.WithoutUri(images, imageUri);
      }
      return Done;
    }

    /** `fetchMedia`: from the server when the backend flag is set, each image link tagged
        with a null backendId; from the local mirror otherwise. A throwing request leaves
        the lists as they were. */
    method FetchMedia(link: Link, server: ServerStore.EventStore, db: LocalStore.LocalDb)
      requires db.Valid()
      modifies this
      ensures participants == old(participants)
      ensures backendActive ==>
        if Authorized(link) && server.GetMedia(eventId, Origin).Ok?
        then images == ServerImages(server.GetMedia(eventId, Origin).value.0)
             && files == server.GetMedia(eventId, Origin).value.1
        else images == old(images) && files == old(files)
      ensures !backendActive ==> images == db.GetImagesLocal(eventId) && files == db.GetFilesLocal(eventId)
    {
      if backendActive {
        if Authorized(link) {
          var media := server.GetMedia(eventId, Origin);
          if media.Ok? {
            images := ServerImages(media.value.0);
            files := media.value.1;
          }
        }
      } else {
        images := db.GetImagesLocal(eventId);
        files := db.GetFilesLocal(eventId);
      }
    }

    /** `uploadFile` with a picked file: always sent to the server, whatever the backend
        flag; the screen shows the server's list, then the local uri is appended to the
        mirror. No owner gate. */
    method UploadFile(fileUri: string, storedName: string, link: Link, server: ServerStore.EventStore,
                      db: LocalStore.LocalDb)
      returns (r: Ending)
      requires server.Valid() && db.Valid()
      modifies this, server, db
      ensures server.Valid() && db.Valid() && server.users == old(server.users) && db.users == old(db.users)
      ensures participants == old(participants) && images == old(images)
      ensures r == Done || r == Failed
      ensures r == Failed ==> server.events == old(server.events) && db.events == old(db.events) && files == old(files)
      ensures r == Done ==>
        Authorized(link) && eventId in old(server.events)
        && server.events == old(server.events)[eventId := old(server.events)[eventId].(
             files := old(server.events)[eventId].files + ["/uploads/files/" + storedName])]
        && files == server.events[eventId].files
        && db.events == (if eventId != "" then LocalStore.FileAdded(old(db.events), eventId, fileUri) else old(db.events))
        && db.GetFilesLocal(eventId) ==
             old(db.GetFilesLocal(eventId)) + if eventId != "" && old(db.HasEvent(eventId)) then [fileUri] else []
    {
      if !Authorized(link) {
        return Failed;
      }
      var status := server.UploadFile(eventId, Some(storedName));
      if status != 200 {
        return Failed;
      }
      files := server.events[eventId].files;
      if eventId != "" {
        db.AddFileLocal(eventId, fileUri);
      }
      return Done;
    }

    /** `handleDeleteFile` (after the confirmation): owner only; with the backend flag set
        only the server list changes, otherwise only the local mirror. */
    method HandleDeleteFile(filePath: string, link: Link, server: ServerStore.EventStore, db: LocalStore.LocalDb)
      returns (r: Ending)
      requires server.Valid() && db.Valid()
      modifies this, server, db
      ensures server.Valid() && db.Valid() && server.users == old(server.users) && db.users == old(db.users)
      ensures participants == old(participants) && images == old(images)
      ensures r == Denied <==> !IsEventOwner()
      ensures r != Done ==> server.events == old(server.events) && db.events == old(db.events) && files == old(files)
      ensures r != Rejected && (r == Failed ==> backendActive)
      ensures r == Done && backendActive ==>
        var path := ReplaceFirst(filePath, Origin, "");
        db.events == old(db.events)
        && eventId in old(server.events) && path in old(server.events)[eventId].files
        && (var e := old(server.events)[eventId];
            server.events == old(server.events)[eventId := e.(files := RemoveAt(e.files, IndexOf(e.files, path)))])
        && files == server.events[eventId].files
      ensures r == Done && !backendActive ==>
        server.events == old(server.events) && files == old(files)
        && db.events == LocalStore.FileDeleted(old(db.events), eventId, filePath)
        && db.GetFilesLocal(eventId) == LocalStore.Without(old(db.GetFilesLocal(eventId)), filePath)
    {
      if !HandleRestrictedAction() {
        return Denied;
      }
      var relativePath := ReplaceFirst(filePath, Origin, "");
      if backendActive {
        if !Authorized(link) {
          return Failed;
        }
        var status := server.DeleteFile(eventId, relativePath);
        if status != 200 {
          return Failed;
        }
        files := server.events[eventId].files;
      } else {
        db.DeleteFileLocal(eventId, filePath);
      }
      return Done;
    }
  }

  /** Every image the gallery handler adds to the mirror has an undefined backendId, and the
      offline delete passes the pressed image's backendId: with two such images, deleting
      one removes both. */
  lemma {:induction false} OfflineDeleteRemovesEveryLocalImage(a: string, b: string)
    ensures LocalStore.WithoutBackendId([LocalStore.ImageEntry(a, Undefined), LocalStore.ImageEntry(b, Undefined)], Undefined) == []
  {
    var stored := [LocalStore.ImageEntry(a, Undefined), LocalStore.ImageEntry(b, Undefined)];
    assert stored[1..][1..] == [];
    assert LocalStore.WithoutBackendId(stored[1..][1..], Undefined) == [];
    assert LocalStore.WithoutBackendId(stored[1..], Undefined) == [];
  }

  /** The same as a run of the screen: offline, two pictures picked from the gallery for an
      event with no images yet, then the owner deletes the first; the mirror keeps none. */
  method GalleryTwiceThenDelete(screen: EventDetails, a: string, b: string, link: Link,
                                server: ServerStore.EventStore, db: LocalStore.LocalDb)
    requires !screen.backendActive && screen.IsEventOwner() && screen.eventId != ""
    requires server.Valid() && db.Valid() && db.HasEvent(screen.eventId) && db.GetImagesLocal(screen.eventId) == []
    modifies screen, server, db
    ensures db.Valid() && db.GetImagesLocal(screen.eventId) == []
  {
    var picked := screen.OpenGallery(a, a, link, server, db);
    assert db.GetImagesLocal(screen.eventId) == [LocalStore.ImageEntry(a, Undefined)];
    picked := screen.OpenGallery(b, b, link, server, db);
    assert db.GetImagesLocal(screen.eventId) == [LocalStore.ImageEntry(a, Undefined), LocalStore.ImageEntry(b, Undefined)];
    var deleted := screen.HandleDeleteImage(a, Undefined, link, server, db);
    OfflineDeleteRemovesEveryLocalImage(a, b);
  }

  /** With the delete by uri, the same run keeps the picture that was not pressed. */
  method GalleryTwiceThenDeleteByUri(screen: EventDetails, a: string, b: string, link: Link,
                                     server: ServerStore.EventStore, db: LocalStore.LocalDb)
    requires !screen.backendActive && screen.IsEventOwner() && screen.eventId != "" && a != b
    requires server.Valid() && db.Valid() && db.HasEvent(screen.eventId) && db.GetImagesLocal(screen.eventId) == []
    modifies screen, server, db
    ensures db.Valid() && db.GetImagesLocal(screen.eventId) == [LocalStore.ImageEntry(b, Undefined)]
  {
    var picked := screen.OpenGallery(a, a, link, server, db);
    assert db.GetImagesLocal(screen.eventId) == [LocalStore.ImageEntry(a, Undefined)];
    picked := screen.OpenGallery(b, b, link, server, db);
    assert db.GetImagesLocal(screen.eventId) == [LocalStore.ImageEntry(a, Undefined), LocalStore.ImageEntry(b, Undefined)];
    var deleted := screen.HandleDeleteImageByUri(a, link, server, db);
    DeleteFirstOfTwoByUri(a, b);
  }

  /** Of two pictures with distinct uris, deleting the first by uri keeps the second. */
  lemma {:induction false} DeleteFirstOfTwoByUri(a: string, b: string)
    requires a != b
    ensures LocalStore.WithoutUri([LocalStore.ImageEntry(a, Undefined), LocalStore.ImageEntry(b, Undefined)], a)
            == [LocalStore.ImageEntry(b, Undefined)]
  {
    var stored := [LocalStore.ImageEntry(a, Undefined), LocalStore.ImageEntry(b, Undefined)];
    DeleteByUriKeepsOthers(stored, 0);
    assert RemoveAt(stored, 0) == [stored[1]];
  }

  /** Online, the screen's images all come from `fetchMedia` tagged with a null backendId,
      and the delete handler filters the screen's list by the pressed image's backendId:
      deleting one image empties the list on screen. */
  lemma {:induction false} OnlineDeleteEmptiesScreenList(uris: seq<string>)
    ensures LocalStore.WithoutBackendId(ServerImages(uris), JsValue.Null) == []
  {
    if uris != [] {
      assert ServerImages(uris)[1..] == ServerImages(uris[1..]);
      OnlineDeleteEmptiesScreenList(uris[1..]);
    }
  }

  /** Deleting by uri removes exactly the pressed image when the uris are distinct. */
  lemma {:induction false} DeleteByUriKeepsOthers(stored: seq<LocalStore.ImageEntry>, k: nat)
    requires k < |stored|
    requires forall i, j :: 0 <= i < j < |stored| ==> stored[i].uri != stored[j].uri
    ensures LocalStore.WithoutUri(stored, stored[k].uri) == RemoveAt(stored, k)
  {
    var p := (img: LocalStore.ImageEntry) => img.uri != stored[k].uri;
    forall i | 0 <= i < |stored| && i != k ensures p(stored[i]) {
      if i < k {
        assert stored[i].uri != stored[k].uri;
      } else {
        assert stored[k].uri != stored[i].uri;
      }
    }
    FilterDropsOne(stored, k, p);
  }
}
