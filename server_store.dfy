/**
 * The authoritative event store of the backend (`backend/controllers/eventController.js`):
 * the Mongo `events` collection as a map from event id to document, and the `users`
 * collection in its natural order. Each handler answers with an HTTP status; the
 * caller is the user id the session middleware put in `req.user.id`.
 */
module ServerStore {
  import opened Js

  type Id = string

  datatype UserDoc = UserDoc(id: Id, name: string, email: string)

  /** An event document (`backend/models/Event.js`); dates are kept as opaque strings. */
  datatype EventDoc = EventDoc(
    title: string, description: string, startDate: string, endDate: string,
    owner: Id, participants: seq<Id>, images: seq<string>, files: seq<string>)

  /** The body of a read handler, or the status of the error it answers with. */
  datatype Outcome<+T> = Ok(value: T) | Fail(status: int)

  /** The document a reference points to, as `populate` finds it. */
  function Lookup(users: seq<UserDoc>, id: Id): (r: Option<UserDoc>)
    ensures r.Some? ==> r.value in users && r.value.id == id
    ensures r.None? <==> forall k :: 0 <= k < |users| ==> users[k].id != id
  {
    if users == [] then None
    else if users[0].id == id then Some(users[0])
    else Lookup(users[1..], id)
  }

  /** `$or: [{ user: caller }, { participants: caller }]` */
  predicate Visible(e: EventDoc, caller: Id) {
    e.owner == caller || caller in e.participants
  }

  /** `User.find({ email: { $in: emails } })` mapped to ids: the users whose email is
      listed, in collection order. */
  function MatchingIds(users: seq<UserDoc>, emails: seq<string>): (ids: seq<Id>)
    ensures |ids| <= |users|
    ensures forall k :: 0 <= k < |users| && users[k].email in emails ==> users[k].id in ids
  {
    if users == [] then []
    else (if users[0].email in emails then [users[0].id] else []) + MatchingIds(users[1..], emails)
  }

  /** Every id found belongs to a user whose email was listed. */
  lemma {:induction false} MatchingIdsListed(users: seq<UserDoc>, emails: seq<string>, id: Id)
    requires id in MatchingIds(users, emails)
    ensures exists j :: 0 <= j < |users| && users[j].email in emails && users[j].id == id
  {
    if !(users[0].email in emails && id == users[0].id) {
      MatchingIdsListed(users[1..], emails, id);
      var j :| 0 <= j < |users[1..]| && users[1..][j].email in emails && users[1..][j].id == id;
      assert users[j + 1] == users[1..][j];
    }
  }

  /** Distinct users give distinct ids. */
  lemma {:induction false} MatchingIdsNoDup(users: seq<UserDoc>, emails: seq<string>)
    requires forall i, j :: 0 <= i < j < |users| ==> users[i].id != users[j].id
    ensures NoDup(MatchingIds(users, emails))
  {
    if users != [] {
      MatchingIdsNoDup(users[1..], emails);
      var tail := MatchingIds(users[1..], emails);
      forall k | 0 <= k < |tail| ensures tail[k] != users[0].id {
        MatchingIdsListed(users[1..], emails, tail[k]);
        var j :| 0 <= j < |users[1..]| && users[1..][j].email in emails && users[1..][j].id == tail[k];
        assert users[1..][j] == users[j + 1];
      }
    }
  }

  /** Ids already in the list are dropped, in the order they come. */
  function NewIds(ids: seq<Id>, participants: seq<Id>): seq<Id> {
    Filter(ids, id => id !in participants)
  }

  /** The participant references `populate('participants')` resolves, as documents; the
      references to missing users are dropped. */
  function Populate(users: seq<UserDoc>, ids: seq<Id>): (docs: seq<UserDoc>)
    ensures |docs| <= |ids|
    ensures forall k :: 0 <= k < |docs| ==> docs[k] in users && docs[k].id in ids
    ensures forall k :: 0 <= k < |ids| && Lookup(users, ids[k]).Some? ==> Lookup(users, ids[k]).value in docs
  {
    if ids == [] then []
    else
      (match Lookup(users, ids[0]) case Some(u) => [u] case None => []) + Populate(users, ids[1..])
  }

  /** The participants `removeParticipant` saves back: the resolved ones whose email differs. */
  function Kept(users: seq<UserDoc>, ids: seq<Id>, email: string): seq<Id> {
    Filter(ids, id => Lookup(users, id).Some? && Lookup(users, id).value.email != email)
  }

  /** What `removeParticipant` keeps holds each id once when the list did, and every kept id
      resolves to a user with another email. */
  lemma {:induction false} KeptResolvedOthers(users: seq<UserDoc>, ids: seq<Id>, email: string)
    ensures NoDup(ids) ==> NoDup(Kept(users, ids, email))
    ensures forall id :: id in Kept(users, ids, email) ==>
      Lookup(users, id).Some? && Lookup(users, id).value.email != email
  {
    var p := id => Lookup(users, id).Some? && Lookup(users, id).value.email != email;
    if NoDup(ids) {
      FilterNoDup(ids, p);
    }
    var kept := Filter(ids, p);
    forall id | id in kept ensures p(id) {
      var k :| 0 <= k < |kept| && kept[k] == id;
    }
  }

  /** Every saved event passed the required-title validator and holds each participant once. */
  predicate SavedEvents(events: map<Id, EventDoc>) {
    forall id :: id in events ==> events[id].title != "" && NoDup(events[id].participants)
  }

  /** Saving one document with a title and distinct participants keeps every saved event valid. */
  lemma {:induction false} SaveKeepsSaved(events: map<Id, EventDoc>, id: Id, doc: EventDoc)
    requires SavedEvents(events) && doc.title != "" && NoDup(doc.participants)
    ensures SavedEvents(events[id := doc])
  {
  }

  class EventStore {
    var events: map<Id, EventDoc>
    var users: seq<UserDoc>

    /** Ids of users are unique; every saved event passed the required-title validator and
        holds each participant once. */
    predicate Valid()
      reads this
    {
      (forall i, j :: 0 <= i < j < |users| ==> users[i].id != users[j].id)
      && SavedEvents(events)
    }

    /** The collections as the server starts with them: the registered users and no events. */
    constructor (registered: seq<UserDoc>)
      requires forall i, j :: 0 <= i < j < |registered| ==> registered[i].id != registered[j].id
      ensures events == map[] && users == registered && Valid()
    {
      events := map[];
      users := registered;
    }

    /** `createEvent`: the required validators reject a missing or empty title, start or end
        date (500); a missing description becomes ''. The new document belongs to the caller
        and starts with no participants, images or files. */
    method CreateEvent(caller: Id, newId: Id, title: Option<string>, description: Option<string>,
                       startDate: Option<string>, endDate: Option<string>)
      returns (status: int)
      requires Valid() && newId !in events
      modifies this
      ensures Valid() && users == old(users)
      ensures status == 201 <==> Truthy(title) && Truthy(startDate) && Truthy(endDate)
      ensures status != 201 ==> status == 500 && events == old(events)
      ensures status == 201 ==>
        events == old(events)[newId := EventDoc(title.value, if description.Some? then description.value else "",
                                                startDate.value, endDate.value, caller, [], [], [])]
    {
      if !Truthy(title) || !Truthy(startDate) || !Truthy(endDate) {
        return 500;
      }
      var description' := if description.Some? then description.value else "";
      SaveKeepsSaved(events, newId, EventDoc(title.value, description', startDate.value, endDate.value, caller, [], [], []));
      events := events[newId := EventDoc(title.value, description', startDate.value, endDate.value, caller, [], [], [])];
      status := 201;
    }

    /** `getEvents`: the events the caller owns or takes part in. */
    function GetEvents(caller: Id): (r: map<Id, EventDoc>)
      reads this
      ensures forall id :: id in r <==> id in events && Visible(events[id], caller)
      ensures forall id :: id in r ==> r[id] == events[id]
    {
      map id | id in events && Visible(events[id], caller) :: events[id]
    }

    /** `updateEvent`: 404 and no change unless the event exists and the caller owns it;
        otherwise each field takes the new value when it is truthy and keeps the old one
        otherwise. */
    method UpdateEvent(caller: Id, id: Id, title: Option<string>, description: Option<string>,
                       startDate: Option<string>, endDate: Option<string>)
      returns (status: int)
      requires Valid()
      modifies this
      ensures Valid() && users == old(users)
      ensures status == 200 <==> id in old(events) && old(events)[id].owner == caller
      ensures status != 200 ==> status == 404 && events == old(events)
      ensures status == 200 ==>
        var e := old(events)[id];
        events == old(events)[id := e.(title := Or(title, e.title), description := Or(description, e.description),
                                       startDate := Or(startDate, e.startDate), endDate := Or(endDate, e.endDate))]
    {
      if id !in events || events[id].owner != caller {
        return 404;
      }
      var e := events[id];
      e := e.(title := Or(title, e.title));
      e := e.(description := Or(description, e.description));
      e := e.(startDate := Or(startDate, e.startDate));
      e := e.(endDate := Or(endDate, e.endDate));
      SaveKeepsSaved(events, id, e);
      events := events[id := e];
      status := 200;
    }

    /** `deleteEvent`: 404 and no change unless the event exists and the caller owns it. */
    method DeleteEvent(caller: Id, id: Id) returns (status: int)
      requires Valid()
      modifies this
      ensures Valid() && users == old(users)
      ensures status == 200 <==> id in old(events) && old(events)[id].owner == caller
      ensures status != 200 ==> status == 404 && events == old(events)
      ensures status == 200 ==> events == old(events) - {id}
    {
      if id !in events || events[id].owner != caller {
        return 404;
      }
      events := events - {id};
      status := 200;
    }

    /** `addParticipants`: the exits in the order the handler checks them, then the ids of
        the matching users that are not yet participants are appended. `emails` is `None`
        when the body field is not an array. */
    method AddParticipants(caller: Id, eventId: Id, emails: Option<seq<string>>) returns (status: int)
      requires Valid()
      modifies this
      ensures Valid() && users == old(users)
      ensures status != 200 ==> events == old(events)
      ensures eventId == "" ==> status == 400
      ensures eventId != "" && eventId !in old(events) ==> status == 404
      ensures eventId != "" && eventId in old(events) && old(events)[eventId].owner != caller ==> status == 403
      ensures eventId != "" && eventId in old(events) && old(events)[eventId].owner == caller ==>
        if emails.None? || emails.value == [] || MatchingIds(users, emails.value) == [] then status == 400
        else
          var e := old(events)[eventId];
          var added := NewIds(MatchingIds(users, emails.value), e.participants);
          if added == [] then status == 400
          else status == 200 && events == old(events)[eventId := e.(participants := e.participants + added)]
      ensures status == 200 ==> eventId in old(events) && eventId in events && emails.Some?
      ensures status == 200 ==>
        forall k :: 0 <= k < |users| && users[k].email in emails.value ==> users[k].id in events[eventId].participants
    {
      if eventId == "" {
        return 400;
      }
      if eventId !in events {
        return 404;
      }
      var e := events[eventId];
      if caller != e.owner {
        return 403;
      }
      if emails.None? || emails.value == [] {
        return 400;
      }
      var userIds := MatchingIds(users, emails.value);
      if |userIds| == 0 {
        return 400;
      }
      var added := NewIds(userIds, e.participants);
      if |added| == 0 {
        return 400;
      }
      MatchingIdsNoDup(users, emails.value);
      FilterNoDup(userIds, id => id !in e.participants);
      var participants := e.participants + added;
      forall k | 0 <= k < |users| && users[k].email in emails.value ensures users[k].id in participants {
        var id := users[k].id;
        assert id in userIds;
        if id !in e.participants {
          var j :| 0 <= j < |userIds| && userIds[j] == id;
          assert id in added;
        }
      }
      SaveKeepsSaved(events, eventId, e.(participants := participants));
      events := events[eventId := e.(participants := participants)];
      status := 200;
    }

    /** `getParticipants`: 400 without an event id, 404 for a missing event, 500 when the
        owner does not resolve (reading `_id` of null throws); otherwise the owner and the
        participants that resolve, in order. */
    function GetParticipants(eventId: Id): (r: Outcome<(UserDoc, seq<UserDoc>)>)
      reads this
      ensures eventId == "" ==> r == Fail(400)
      ensures eventId != "" && eventId !in events ==> r == Fail(404)
      ensures r.Ok? ==> eventId in events && r.value.0 in users && r.value.0.id == events[eventId].owner
      ensures r.Ok? ==> forall k :: 0 <= k < |r.value.1| ==> r.value.1[k] in users && r.value.1[k].id in events[eventId].participants
      ensures eventId != "" && eventId in events ==>
        (r.Ok? <==> Lookup(users, events[eventId].owner).Some?) && (r.Fail? ==> r.status == 500)
      ensures r.Ok? ==> r.value.1 == Populate(users, events[eventId].participants)
      ensures r.Ok? ==> forall id :: id in events[eventId].participants && Lookup(users, id).Some? ==>
        Lookup(users, id).value in r.value.1
    {
      if eventId == "" then Fail(400)
      else if eventId !in events then Fail(404)
      else
        var e := events[eventId];
        match Lookup(users, e.owner)
        case None => Fail(500)
        case Some(owner) => Ok((owner, Populate(users, e.participants)))
    }

    /** `removeParticipant`: 404 for a missing event, 403 for a caller who is not the owner,
        404 when no resolved participant has the email; otherwise the participants are
        replaced by the resolved ones whose email differs. */
    method RemoveParticipant(caller: Id, eventId: Id, email: string) returns (status: int)
      requires Valid()
      modifies this
      ensures Valid() && users == old(users)
      ensures status != 200 ==> events == old(events)
      ensures eventId !in old(events) ==> status == 404
      ensures eventId in old(events) && old(events)[eventId].owner != caller ==> status == 403
      ensures eventId in old(events) && old(events)[eventId].owner == caller ==>
        var e := old(events)[eventId];
        if forall u :: u in Populate(users, e.participants) ==> u.email != email then status == 404
        else status == 200 && events == old(events)[eventId := e.(participants := Kept(users, e.participants, email))]
      ensures status == 200 ==> forall id :: id in events[eventId].participants ==>
        Lookup(users, id).Some? && Lookup(users, id).value.email != email
    {
      if eventId !in events {
        return 404;
      }
      var e := events[eventId];
      if e.owner != caller {
        return 403;
      }
      var populated := Populate(users, e.participants);
      var found := exists u :: u in populated && u.email == email;
      if !found {
        return 404;
      }
      var kept := Kept(users, e.participants, email);
      KeptResolvedOthers(users, e.participants, email);
      SaveKeepsSaved(events, eventId, e.(participants := kept));
      events := events[eventId := e.(participants := kept)];
      status := 200;
    }

    /** `uploadImage`: 400 without a file, 404 for a missing event, otherwise the path
        `/uploads/images/<filename>` is appended. No ownership check. */
    method UploadImage(eventId: Id, filename: Option<string>) returns (status: int)
      requires Valid()
      modifies this
      ensures Valid() && users == old(users)
      ensures filename.None? ==> status == 400
      ensures filename.Some? && eventId !in old(events) ==> status == 404
      ensures status != 200 ==> events == old(events)
      ensures status == 200 <==> filename.Some? && eventId in old(events)
      ensures status == 200 ==>
        events == old(events)[eventId := old(events)[eventId].(images := old(events)[eventId].images + ["/uploads/images/" + filename.value])]
    {
      if filename.None? {
        return 400;
      }
      var imagePath := "/uploads/images/" + filename.value;
      if eventId !in events {
        return 404;
      }
      var e := events[eventId];
      SaveKeepsSaved(events, eventId, e.(images := e.images + [imagePath]));
      events := events[eventId := e.(images := e.images + [imagePath])];
      status := 200;
    }

    /** `deleteImage`: 404 for a missing event or a path not in the list; otherwise the first
        occurrence of the path is spliced out. No ownership check. */
    method DeleteImage(eventId: Id, imagePath: string) returns (status: int)
      requires Valid()
      modifies this
      ensures Valid() && users == old(users)
      ensures status != 200 ==> status == 404 && events == old(events)
      ensures status == 200 <==> eventId in old(events) && imagePath in old(events)[eventId].images
      ensures status == 200 ==>
        var e := old(events)[eventId];
        events == old(events)[eventId := e.(images := RemoveAt(e.images, IndexOf(e.images, imagePath)))]
        && multiset(events[eventId].images) == multiset(e.images) - multiset{imagePath}
    {
      if eventId !in events {
        return 404;
      }
      var e := events[eventId];
      var imageIndex := IndexOf(e.images, imagePath);
      if imageIndex == -1 {
        return 404;
      }
      RemoveFirstOccurrence(e.images, imagePath);
      SaveKeepsSaved(events, eventId, e.(images := RemoveAt(e.images, imageIndex)));
      events := events[eventId := e.(images := RemoveAt(e.images, imageIndex))];
      status := 200;
    }

    /** `uploadFile`: 400 without a file, 404 for a missing event, otherwise the path
        `/uploads/files/<filename>` is appended. No ownership check. */
    method UploadFile(eventId: Id, filename: Option<string>) returns (status: int)
      requires Valid()
      modifies this
      ensures Valid() && users == old(users)
      ensures filename.None? ==> status == 400
      ensures filename.Some? && eventId !in old(events) ==> status == 404
      ensures status != 200 ==> events == old(events)
      ensures status == 200 <==> filename.Some? && eventId in old(events)
      ensures status == 200 ==>
        events == old(events)[eventId := old(events)[eventId].(files := old(events)[eventId].files + ["/uploads/files/" + filename.value])]
    {
      if filename.None? {
        return 400;
      }
      var filePath := "/uploads/files/" + filename.value;
      if eventId !in events {
        return 404;
      }
      var e := events[eventId];
      SaveKeepsSaved(events, eventId, e.(files := e.files + [filePath]));
      events := events[eventId := e.(files := e.files + [filePath])];
      status := 200;
    }

    /** `deleteFile`: 404 for a missing event or a path not in the list; otherwise the first
        occurrence of the path is spliced out. No ownership check. */
    method DeleteFile(eventId: Id, filePath: string) returns (status: int)
      requires Valid()
      modifies this
      ensures Valid() && users == old(users)
      ensures status != 200 ==> status == 404 && events == old(events)
      ensures status == 200 <==> eventId in old(events) && filePath in old(events)[eventId].files
      ensures status == 200 ==>
        var e := old(events)[eventId];
        events == old(events)[eventId := e.(files := RemoveAt(e.files, IndexOf(e.files, filePath)))]
        && multiset(events[eventId].files) == multiset(e.files) - multiset{filePath}
    {
      if eventId !in events {
        return 404;
      }
      var e := events[eventId];
      var fileIndex := IndexOf(e.files, filePath);
      if fileIndex == -1 {
        return 404;
      }
      RemoveFirstOccurrence(e.files, filePath);
      SaveKeepsSaved(events, eventId, e.(files := RemoveAt(e.files, fileIndex)));
      events := events[eventId := e.(files := RemoveAt(e.files, fileIndex))];
      status := 200;
    }

    /** `getMedia`: 404 for a missing event; otherwise every image path prefixed with the
        server origin `<protocol>://<host>`, and the file paths as stored. */
    function GetMedia(eventId: Id, origin: string): (r: Outcome<(seq<string>, seq<string>)>)
      reads this
      ensures r.Fail? <==> eventId !in events
      ensures r.Fail? ==> r.status == 404
      ensures r.Ok? ==> |r.value.0| == |events[eventId].images| && r.value.1 == events[eventId].files
      ensures r.Ok? ==> forall k :: 0 <= k < |r.value.0| ==> r.value.0[k] == origin + events[eventId].images[k]
    {
      if eventId !in events then Fail(404)
      else
        var e := events[eventId];
        Ok((seq(|e.images|, k requires 0 <= k < |e.images| => origin + e.images[k]), e.files))
    }
  }

  /** The owner can be added to the participants of their own event: `addParticipants`
      filters only ids already in the list. */
  lemma {:induction false} OwnerCanBecomeParticipant(users: seq<UserDoc>, e: EventDoc, ownerEmail: string)
    requires forall i, j :: 0 <= i < j < |users| ==> users[i].id != users[j].id
    requires exists k :: 0 <= k < |users| && users[k].id == e.owner && users[k].email == ownerEmail
    requires e.owner !in e.participants
    ensures e.owner in NewIds(MatchingIds(users, [ownerEmail]), e.participants)
  {
    var ids := MatchingIds(users, [ownerEmail]);
    assert e.owner in ids;
    var k :| 0 <= k < |ids| && ids[k] == e.owner;
    assert ids[k] !in e.participants;
  }

  /** A user whose email `addParticipants` was given sees the event in `getEvents`
      afterwards, whether newly added or already a participant. */
  lemma {:induction false} AddedUserSeesEvent(users: seq<UserDoc>, e: EventDoc, emails: seq<string>, u: UserDoc)
    requires u in users && u.email in emails
    ensures Visible(e.(participants := e.participants + NewIds(MatchingIds(users, emails), e.participants)), u.id)
  {
    var ids := MatchingIds(users, emails);
    var k :| 0 <= k < |users| && users[k] == u;
    assert u.id in ids;
    if u.id !in e.participants {
      var j :| 0 <= j < |ids| && ids[j] == u.id;
      assert u.id in NewIds(ids, e.participants);
    }
  }

  /** A user `removeParticipant` removed by email sees the event afterwards only if they own it. */
  lemma {:induction false} RemovedUserLosesEvent(users: seq<UserDoc>, e: EventDoc, u: UserDoc)
    requires forall i, j :: 0 <= i < j < |users| ==> users[i].id != users[j].id
    requires u in users
    ensures Visible(e.(participants := Kept(users, e.participants, u.email)), u.id) <==> e.owner == u.id
  {
  }
}
