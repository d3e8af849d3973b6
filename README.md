# EventPlanner in Dafny: the two event stores and the handlers between them

EventPlanner keeps every event in two places:

- **The server store.** An Express/Mongo backend holds the authoritative store (`backend/controllers/eventController.js`).
- **The local mirror.** A React Native client keeps a copy on the device in SQLite (`frontend/database/db.js`).

The client's screens issue writes in a fixed order: the server first, then the local mirror. Each screen decides which store to touch from a backend-reachability flag, and gates owner-only actions on the client side. Around this sit the session (`frontend/AuthContext.js`) and the chat path (`backend/controllers/messageController.js`, `frontend/screens/ChatModal.js`, `frontend/services/socket.js`).

The model keeps the source's imperative form:

- **Server store.** `ServerStore.EventStore` is a class over a map from event id to document. Its handlers answer HTTP statuses.
- **Local mirror.** `LocalStore.LocalDb` is a class over the two SQLite tables. Each table is a sequence of rows in insertion order. The list columns hold JSON text, produced and read by a JSON model (`Json`) whose `Parse(Stringify(v)) == Some(v)` is proved.
- **Session.** `Session.AuthContext` holds the session state.
- **Screens.** `EventDetails.EventDetails`, `EditEvent.OnFormSubmit` and `EventForm.OnFormSubmit` are methods over both store objects. A `Network.Link` (server reachable, identity in the stored token) decides whether a request is served. A non-2xx status makes the awaited call throw.
- **Chat.** `Messages.ChatServer`, `Socket.ClientSocket` and `ChatView.Chat` model the chat path.

Each method's postcondition states the new state of everything it may modify, including which store is untouched on each path. Lemmas and the pure functions' contracts carry the cross-operation properties:

- JSON round trips;
- visibility after adding or removing participants;
- the stripped image link matching the stored path;
- message reads sorted by timestamp, and a permutation of the event's messages.

Differences between the code and its evident design are modelled as written:

- the server checks no owner on image and file upload or delete; only the client gates delete (`EventDetailsModal.js:181`, `:268`);
- `addParticipants` does not exclude the owner (`ServerStore.OwnerCanBecomeParticipant`);
- creating an event has no offline path;
- the server has no `leaveEvent` handler, so the client's `leaveEvent` changes no room.

Two are real defects; see "## Findings".

Some members are plain definitions that the contracts below are stated in, and have no row of their own:

- `EventDetails.EventDetails.HandleRestrictedAction` is the owner gate `userId === event.user._id`. Each gated handler promises `r == Denied` exactly when it fails, and then no change.
- `Messages.ChatServer.Members` is a room's sockets, none for a room nobody joined. `JoinEvent` and `SaveMessage` are stated with it.
- `Session.FromServerDocument` and `Session.KeepingUserId` build the session user after a rename, as written and as corrected. `RenameThenToggle` and `RenameKeepingIdThenToggle` state what each leads to.
- The `LocalStore` table updates (`EventDeleted`, `ParticipantAdded`, `ParticipantRemoved`, `ImageAdded`, `ImagesDeleted`, `ImagesDeletedByUri`, `FileAdded`, `FileDeleted`) give the events table after each write of `db.js`. The store methods and the screen handlers state their new local state with them.

## Model

| member | source | states |
|---|---|---|
| Js.TrimStart | frontend/screens/EventDetailsModal.js:91 | the result is a suffix of the input that starts with a non-space, and everything dropped is JavaScript white space |
| Js.TrimEnd | frontend/screens/EventDetailsModal.js:91 | the result is a prefix of the input that ends with a non-space, and everything dropped is JavaScript white space |
| Js.BlankIffAllSpace | frontend/screens/ChatModal.js:46 | `!s.trim()` holds exactly when every character of `s` is white space, in both directions |
| Js.IndexOf | backend/controllers/eventController.js:244-249 | `indexOf` is -1 exactly when the element is absent, otherwise the first position holding it |
| Js.RemoveFirstOccurrence | backend/controllers/eventController.js:244-249 | `splice(indexOf(x), 1)` removes exactly one copy of `x` (multiset difference), keeps the prefix and shifts the suffix |
| Js.Filter | frontend/database/db.js:403 | every kept element satisfies the predicate and comes from the input; every input element satisfying it is kept |
| Js.FilterMembers | frontend/database/db.js:250-252 | a value is in the filtered list exactly when it is in the input and satisfies the predicate |
| Js.FilterAppend | frontend/database/db.js:325 | filtering distributes over concatenation, so kept elements stay in order |
| Js.FilterKeepsAll | frontend/database/db.js:250-256 | the filter keeps the length exactly when every element passes, and then returns its input; this makes a rewrite with nothing removed a no-op |
| Js.FilterDropsOne | frontend/database/db.js:325 | a filter rejecting exactly one position returns the sequence with that position spliced out |
| Js.FilterNoDup | backend/controllers/eventController.js:192-194 | filtering a duplicate-free list leaves it duplicate-free |
| Js.FindFirst | frontend/screens/EventDetailsModal.js:195 | the first position where the pattern occurs, or -1 when it occurs nowhere |
| Js.StripPrefix | frontend/screens/EventDetailsModal.js:195 | `(origin + path).replace(origin, '')` gives back `path` |
| Json.HexValue | frontend/database/db.js:149-151 | a hexadecimal digit of a `\u` escape reads as a value below 16 |
| Json.UnescapeEscape | frontend/database/db.js:104-106 | every character escaped by `JSON.stringify` is read back by the string parser as that character, leaving the rest of the text |
| Json.CharsRoundTrip | frontend/database/db.js:104-106 | a quoted string body written by `JSON.stringify` parses back to the same string, up to the closing quote |
| Json.RoundTrip | frontend/database/db.js:104-110 | parsing the text of any value followed by more text returns the value and exactly that remaining text |
| Json.ParseStringify | frontend/database/db.js:149-151 | `JSON.parse(JSON.stringify(v))` is `v` for every null, string, array and object value |
| Json.Get | frontend/database/db.js:325 | a property read returns the value of a member carrying that key, and returns nothing only when no member carries it |
| LocalStore.ImageRoundTrip | frontend/database/db.js:279-283 | an image entry `{ uri, backendId }` written to JSON reads back equal, whether `backendId` is undefined, null or a string |
| LocalStore.EncodeDecode | frontend/database/db.js:104-110 | a list written with `JSON.stringify` is parsed back as the same list, and the text is never empty |
| LocalStore.ColumnRoundTrip | frontend/database/db.js:205-209 | a column written from a list reads back as that list through both `col ? JSON.parse(col) : []` and a bare `JSON.parse` |
| LocalStore.WithParticipants | frontend/database/db.js:207-210 | rewriting the participants column keeps the row readable, reads back the new list and changes no other column |
| LocalStore.WithImages | frontend/database/db.js:281-284 | rewriting the images column keeps the row readable, reads back the new list and changes no other column |
| LocalStore.WithFiles | frontend/database/db.js:354-357 | rewriting the files column keeps the row readable, reads back the new list and changes no other column |
| LocalStore.FindEvent | frontend/database/db.js:270-273 | the position of a row with that `event_id`, or -1 exactly when no row has it |
| LocalStore.SameIds | frontend/database/db.js:281-284 | an UPDATE that keeps every `event_id` leaves every lookup by id where it was |
| LocalStore.Without | frontend/database/db.js:403 | `filter(x => x !== value)` keeps exactly the entries other than `value`; its length is unchanged exactly when `value` does not occur, and then the list comes back as it was |
| LocalStore.RemoveRow | frontend/database/db.js:181-194 | deleting one row keeps the key and readability invariant, and the rows left are exactly those with another `event_id` |
| LocalStore.FirstUser | frontend/database/db.js:65-84 | a row of the table whose key matches, or nothing exactly when no row matches |
| LocalStore.OwnerName | frontend/database/db.js:137-140 | the owner name is 'Unknown' when no user row has the event's `user_id`, and otherwise the name of a row that does |
| LocalStore.InsertedRowReadsBack | frontend/database/db.js:149-151 | what `insertEvent` writes is well formed, and `getAllEvents` reads it back with the same fields, the owner name looked up, and the same participants, images and files |
| LocalStore.LocalDb.constructor | frontend/database/db.js:13-44 | fresh tables are empty and satisfy the invariant (unique user id and email, unique event id, readable list columns) |
| LocalStore.LocalDb.InsertUser | frontend/database/db.js:46-63 | the insert succeeds exactly when neither the id nor the email is taken; it then appends the row, otherwise the table is unchanged (SQLite code 19) |
| LocalStore.LocalDb.FindUserByEmail | frontend/database/db.js:65-84 | the row with that email, or null exactly when no row has it |
| LocalStore.LocalDb.UpdateUserNameLocal | frontend/database/db.js:86-98 | only the name of the row with that id changes; every other row and column stays |
| LocalStore.LocalDb.InsertEvent | frontend/database/db.js:100-122 | a taken `event_id` fails and leaves the table unchanged; otherwise exactly the new row is appended, lists as JSON |
| LocalStore.LocalDb.GetAllEvents | frontend/database/db.js:124-163 | one element per row, in table order, with the owner name looked up and the list columns parsed; [] on an empty table |
| LocalStore.LocalDb.UpdateEventLocal | frontend/database/db.js:166-179 | only title, description and the two dates of the matching row change; lists and `user_id` stay |
| LocalStore.LocalDb.DeleteEventLocal | frontend/database/db.js:181-194 | the row with that id is gone and every other row stays, in order |
| LocalStore.LocalDb.GetParticipantsLocal | frontend/database/db.js:219-238 | [] when the event has no row |
| LocalStore.LocalDb.GetImagesLocal | frontend/database/db.js:292-313 | [] when the event has no row |
| LocalStore.LocalDb.GetFilesLocal | frontend/database/db.js:366-389 | [] when the event has no row |
| LocalStore.LocalDb.AddParticipantLocal | frontend/database/db.js:196-217 | the email is appended at the end even if already present; no row, no change |
| LocalStore.LocalDb.RemoveParticipantLocal | frontend/database/db.js:240-265 | every copy of the email is gone, every other email stays, and the row is rewritten only when something was removed |
| LocalStore.LocalDb.AddImageLocal | frontend/database/db.js:267-290 | exactly one `{ uri, backendId }` entry is appended; no row, no change |
| LocalStore.LocalDb.DeleteImageLocal | frontend/database/db.js:315-339 | the entries whose backendId equals the argument are removed and the rest keep their order; an empty column is left alone |
| LocalStore.LocalDb.DeleteImageLocalByUri | frontend/database/db.js:315-339 | the corrected delete: the entries with the pressed uri are removed and every other entry stays, whatever its backendId |
| LocalStore.LocalDb.AddFileLocal | frontend/database/db.js:341-364 | the file uri is appended; no row, no change |
| LocalStore.LocalDb.DeleteFileLocal | frontend/database/db.js:391-418 | every entry equal to the path is removed and nothing else |
| ServerStore.Lookup | backend/controllers/eventController.js:145-147 | a reference resolves to the user document with that id, or to nothing exactly when no user has it |
| ServerStore.MatchingIds | backend/controllers/eventController.js:110-116 | every user whose email is listed contributes its id |
| ServerStore.MatchingIdsListed | backend/controllers/eventController.js:110-116 | every id found belongs to a user whose email was listed |
| ServerStore.MatchingIdsNoDup | backend/controllers/eventController.js:110-118 | distinct users give a duplicate-free id list |
| ServerStore.KeptResolvedOthers | backend/controllers/eventController.js:192-194 | the participants kept after a removal hold each id once when the list did, and each resolves to a user with another email |
| ServerStore.Populate | backend/controllers/eventController.js:176-186 | every resolved participant is a known user listed in the event, and every reference that resolves appears |
| ServerStore.EventStore.CreateEvent | backend/controllers/eventController.js:6-27 | 201 exactly when title and both dates are present; then the new document is owned by the caller, with empty lists and "" for a missing description; otherwise 500 and no change |
| ServerStore.EventStore.GetEvents | backend/controllers/eventController.js:29-45 | exactly the events the caller owns or takes part in, unchanged |
| ServerStore.EventStore.UpdateEvent | backend/controllers/eventController.js:47-69 | 200 exactly for the owner of an existing event, with each field replaced only by a truthy value; otherwise 404 and no change |
| ServerStore.EventStore.DeleteEvent | backend/controllers/eventController.js:71-85 | 200 exactly for the owner of an existing event, and then only that event is gone; otherwise 404 and no change |
| ServerStore.EventStore.AddParticipants | backend/controllers/eventController.js:87-135 | the exits in order: 400 for no id, 404, 403, 400 for no emails, 400 for no matching users, 400 for no new ids; otherwise only new ids are appended and participants stay duplicate-free; no exit but 200 changes anything |
| ServerStore.EventStore.GetParticipants | backend/controllers/eventController.js:137-169 | 400 for no id, 404 for a missing event; for an existing event, Ok exactly when the owner resolves and 500 otherwise; the owner, and the participants exactly as `Populate` resolves them: all known users of that event, and every participant that resolves |
| ServerStore.EventStore.RemoveParticipant | backend/controllers/eventController.js:171-205 | 404, 403, or 404 when no resolved participant has the email; otherwise only resolved participants with other emails remain |
| ServerStore.EventStore.UploadImage | backend/controllers/eventController.js:207-232 | 400 without a file, 404 for a missing event; otherwise exactly `/uploads/images/<name>` is appended; no owner check |
| ServerStore.EventStore.DeleteImage | backend/controllers/eventController.js:234-265 | 404 and no change when the event or the path is missing; otherwise exactly the first occurrence is removed; no owner check |
| ServerStore.EventStore.UploadFile | backend/controllers/eventController.js:267-292 | 400 without a file, 404 for a missing event; otherwise exactly `/uploads/files/<name>` is appended; no owner check |
| ServerStore.EventStore.DeleteFile | backend/controllers/eventController.js:294-325 | 404 and no change when the event or the path is missing; otherwise exactly the first occurrence is removed; no owner check |
| ServerStore.EventStore.GetMedia | backend/controllers/eventController.js:327-343 | 404 exactly for a missing event; otherwise every image path prefixed with the origin, in order, and the file paths as stored |
| ServerStore.OwnerCanBecomeParticipant | backend/controllers/eventController.js:116-125 | the owner's own email adds the owner to the participants when not yet there |
| ServerStore.AddedUserSeesEvent | backend/controllers/eventController.js:116-125 | a user whose email was added sees the event in `getEvents` afterwards |
| ServerStore.RemovedUserLosesEvent | backend/controllers/eventController.js:192-194 | after removal by email the user sees the event exactly when they own it |
| Session.AuthContext.constructor | frontend/AuthContext.js:9-11 | no user, backend flag and notifications off, token as device storage holds it |
| Session.AuthContext.VerifyBackend | frontend/AuthContext.js:13-19 | the flag takes the health check's result and nothing else changes |
| Session.AuthContext.RefreshNotificationPreference | frontend/AuthContext.js:21-35 | with a user and an active backend the fetched preference is stored; a failed fetch or another state keeps it |
| Session.AuthContext.Register | frontend/AuthContext.js:37-54 | the local row is inserted only after the server accepted, keyed by the server id; a failed request or a local conflict answers false with the table unchanged |
| Session.AuthContext.Login | frontend/AuthContext.js:56-104 | an online success stores token and server user; otherwise the local row with that email is accepted only on an exact password match, never touching the token; a wrong password or unknown email keeps the user |
| Session.AuthContext.Logout | frontend/AuthContext.js:106-109 | token and user are cleared |
| Session.AuthContext.UpdateUserName | frontend/AuthContext.js:121-140 | with the backend down, false and no change; on success the user becomes the server document, without `user_id` |
| Session.AuthContext.UpdateUserNameKeepingId | frontend/AuthContext.js:121-140 | the corrected rename: on success the user keeps a `user_id` |
| Session.AuthContext.ToggleNotifications | frontend/AuthContext.js:142-160 | with a user id the preference becomes the value the backend confirms; without one, or on failure, nothing changes |
| Session.RenameThenToggle | frontend/AuthContext.js:147 | after a rename as written, a confirmed toggle leaves the preference unchanged |
| Session.RenameKeepingIdThenToggle | frontend/AuthContext.js:147 | after the corrected rename, a confirmed toggle flips the preference |
| EventDetails.RelativePathOfServerLink | frontend/screens/EventDetailsModal.js:194-196 | the link `getMedia` gives for a stored path, stripped of the base URL, is that stored path |
| EventDetails.EventDetails.constructor | frontend/screens/EventDetailsModal.js:20-25 | the screen starts with empty participant, image and file lists |
| EventDetails.EventDetails.HandleDeleteEvent | frontend/screens/EventDetailsModal.js:49-72 | non-owners touch no store; the local row goes only after the server delete succeeded; on success the server loses exactly that event and the local table exactly that row, the others staying in order; a throwing delete keeps both stores |
| EventDetails.EventDetails.FetchParticipants | frontend/screens/EventDetailsModal.js:74-86 | with the backend flag the server's populated participants, otherwise the local emails as `{ email }`; a failed request keeps the list |
| EventDetails.EventDetails.HandleAddParticipant | frontend/screens/EventDetailsModal.js:88-106 | non-owner: no call; blank email: no call; the local append happens only after the server add succeeded; on success the server event gains exactly the new ids of users with that email, every other event stays, and the local table changes only by the email appended to that row |
| EventDetails.EventDetails.HandleRemoveParticipant | frontend/screens/EventDetailsModal.js:108-120 | non-owner: no call; the local removal happens only after the server removal succeeded; on success the server event keeps exactly its resolved participants with another email, every other event stays, and the local row loses only that email, every other local participant and row staying |
| EventDetails.EventDetails.OpenGallery | frontend/screens/EventDetailsModal.js:152-178 | online the upload comes first and a failure stops before the local add; offline the server is untouched; on success exactly one `{ uri }` entry with an undefined backendId is appended to that row, and no other row or column changes; no owner gate |
| EventDetails.EventDetails.HandleDeleteImage | frontend/screens/EventDetailsModal.js:180-212 | non-owners change nothing; online the server delete gets the stripped link first and removes exactly its first occurrence from that event, the rest of the server store staying; then the local entries and the screen entries with that backendId are removed, and no other row or column changes; offline it never fails |
| EventDetails.EventDetails.HandleDeleteImageByUri | frontend/screens/EventDetailsModal.js:180-212 | the corrected handler: the same server delete as the handler as written; local and screen lists lose exactly the entries with the pressed uri, and no other row or column changes |
| EventDetails.EventDetails.FetchMedia | frontend/screens/EventDetailsModal.js:214-234 | with the backend flag the server's links tagged with a null backendId and the server's files, otherwise the local lists; a failed request keeps both |
| EventDetails.EventDetails.UploadFile | frontend/screens/EventDetailsModal.js:236-265 | always sent to the server; on success only that event gains the stored path, the screen shows the server's files, and the local uri is appended to that row with no other row or column changing; on failure neither store changes |
| EventDetails.EventDetails.HandleDeleteFile | frontend/screens/EventDetailsModal.js:267-296 | non-owners change nothing; with the backend flag only the first occurrence of the path leaves that server event and the local table stays; otherwise the server stays and only that row's files lose the path |
| EventDetails.OfflineDeleteRemovesEveryLocalImage | frontend/screens/EventDetailsModal.js:199-204 | with two locally added images, deleting one by its backendId removes both |
| EventDetails.GalleryTwiceThenDelete | frontend/screens/EventDetailsModal.js:167-204 | offline, two pictures picked for an event without images and then one deleted by the owner leave the mirror with no image |
| EventDetails.GalleryTwiceThenDeleteByUri | frontend/screens/EventDetailsModal.js:167-204 | the same run with the delete by uri keeps the picture that was not pressed |
| EventDetails.DeleteFirstOfTwoByUri | frontend/screens/EventDetailsModal.js:199-204 | of two pictures with distinct uris, deleting the first by uri keeps exactly the second |
| EventDetails.OnlineDeleteEmptiesScreenList | frontend/screens/EventDetailsModal.js:199-204 | with the images fetched from the server, deleting one empties the list on screen |
| EventDetails.DeleteByUriKeepsOthers | frontend/screens/EventDetailsModal.js:199-204 | with distinct uris, deleting by uri removes exactly the pressed image |
| EventForm.OnFormSubmit | frontend/screens/EventForm.js:30-66 | no user: nothing sent; the local insert happens only after the server created the event; on success the server gains exactly the new document and the local table exactly one appended row, with the server id, mirroring the server document and with empty lists |
| EditEvent.OnFormSubmit | frontend/screens/EditEventModal.js:38-66 | a missing id stops before any write; online a failing update writes nothing locally; offline the server is untouched; the local row takes the form's values and keeps mirroring the server document |
| Messages.InsertByTime | backend/controllers/messageController.js:27-29 | inserting into a timestamp-sorted list keeps it sorted and adds exactly that message |
| Messages.SortByTime | backend/controllers/messageController.js:27-29 | the result is sorted by timestamp and is a permutation of the input |
| Messages.OfEvent | backend/controllers/messageController.js:27 | a message is selected exactly when it is stored and belongs to that event |
| Messages.ChatServer.JoinEvent | backend/index.js:40-43 | the socket is added to the event's room and nothing else changes |
| Messages.ChatServer.SaveMessage | backend/controllers/messageController.js:3-22 | 201 exactly when the database accepts a message with event, author and text; then the message is saved, then broadcast once to the room of its event, and answered as it was broadcast; otherwise 500, no save and no broadcast |
| Messages.ChatServer.GetMessages | backend/controllers/messageController.js:24-36 | only that event's messages, sorted by timestamp, and all of them (a permutation of the event's stored messages) |
| Messages.SaveAffectsOnlyItsEvent | backend/controllers/messageController.js:8-10 | a saved message joins its own event's selection, at the end, and leaves every other event's selection as it was |
| Socket.ClientSocket.constructor | frontend/services/socket.js:5-8 | the socket starts disconnected with nothing sent |
| Socket.ClientSocket.Connect | frontend/services/socket.js:11-16 | a disconnected socket connects and joins the room; a connected one does nothing |
| Socket.ClientSocket.Disconnect | frontend/services/socket.js:18-22 | a connected socket announces leaving and disconnects; a disconnected one does nothing |
| Socket.DisconnectTwice | frontend/services/socket.js:18-22 | disconnecting twice equals disconnecting once |
| Socket.ConnectWhileConnected | frontend/services/socket.js:11-16 | a second connect joins no room for the second chat |
| ChatView.Chat.constructor | frontend/screens/ChatModal.js:8-9 | empty message list and input |
| ChatView.Chat.Open | frontend/screens/ChatModal.js:12-28 | the socket is connected (joining the room if it was not) and the list is replaced by the fetched history; a failed load keeps it |
| ChatView.Chat.Close | frontend/screens/ChatModal.js:39-42 | the socket is disconnected, announcing leaving the room if it was connected |
| ChatView.Chat.Receive | frontend/screens/ChatModal.js:30-37 | a broadcast message is appended at the end; a null or undefined payload is ignored |
| ChatView.Chat.HandleSendMessage | frontend/screens/ChatModal.js:45-65 | blank input: nothing; an answer with `messageData` appends it and clears the input; a failed request or an answer without it changes nothing |
| ChatView.SendOwnMessage | frontend/screens/ChatModal.js:55-58 | a sender in the event's room ends up with its own message twice: once from the answer and once from the broadcast |

## Left out

- Rendering, styles, alerts and confirmation dialogs are not modelled. Each handler is modelled as if the user confirmed. The same goes for the camera and document pickers, file download and sharing, and local notifications; `scheduleLocalNotification` is taken never to throw.
- The screens' transient list updates in `openGallery` and the fire-and-forget refreshes (`fetchMedia()` and `fetchParticipants()` that are not awaited) are not modelled. The refreshes run as separate methods.
- `handleAddParticipant` also clears the email input. That input is not modelled.
- Network, I/O and identity are inputs:
  - reachability and the health check are booleans;
  - an awaited call that may throw is a `Remote` value or a `Link`;
  - database ids, message timestamps and upload file names are parameters;
  - JWT verification is reduced to "the token names this user id".
- Database failures of Mongo and SQLite are not modelled, apart from these:
  - the required fields on event and message creation;
  - the SQLite PRIMARY KEY and UNIQUE violations;
  - a message save that fails.

  The invariant `LocalStore.LocalDb.Valid` keeps every list column readable, so a `JSON.parse` that throws on a corrupt column is outside the model.
- `ObjectId` cast errors are not modelled: ids are plain strings, and a malformed id behaves like a missing one.
- Dates are opaque strings; `toISOString` and date parsing are not modelled.
- JSON is modelled for null, strings, arrays and objects, written without white space (what `JSON.stringify` emits). Numbers, booleans and white space between tokens are not.
- Mongoose's `populate('author')` on messages is not modelled; a message's author stays an id.
- Socket.IO delivery and concurrency are not modelled. A room's recipients are the room's members at the moment of the broadcast, and the library leaving rooms on disconnect is not modelled. The client's `leaveEvent` reaches no handler on the server.
- SQLite `SELECT` without `ORDER BY` is taken to return rows in insertion order.
- Physical file deletion (`fs.unlink`) and the unreachable code in `getMedia`'s catch block are not modelled.
- `EventsScreen.js` and `AccountScreen.js` only call operations modelled here. The user controller is not part of this model; its rename answer is the `UserDocument` input of `Session.AuthContext.UpdateUserName`.
- Session.AuthContext.Register: the answer is modelled as the server `_id`. A reply without `_id`, which would insert a row with an undefined id, is not modelled.
- HandleDeleteImageByUri: online, the pressed image's uri is the server link, which never equals the device uri the gallery handler stored locally, so the mirror keeps its entry. The model fixes the delete by uri but does not give the mirror a way to match a server link to a local picture.
- ServerStore.EventStore.GetEvents: `populate('user', 'name email')` and `populate('participants', 'name email')` are not modelled; the events come back with ids in place of user documents. This changes only the shape of the answer, not which events it holds.
- Messages.ChatServer.GetMessages: Mongo's order among equal timestamps is unspecified. The contract promises sorted order and the same messages, not a particular order among ties.

## Findings

| source | as written | input that shows it | evidently intended | confidence | as-written member | corrected member |
|---|---|---|---|---|---|---|
| frontend/screens/EventDetailsModal.js:167-204 | `openGallery` stores each image locally without a backendId. `handleDeleteImage` deletes local entries, and filters the screen's list, by the pressed image's backendId. | Offline: two images added, then one deleted; both local entries share the undefined backendId and both go. Online: every fetched image has a null backendId, so deleting one clears the whole list on screen. | Deleting removes only the pressed image. The corrected handler does so on the server, on screen and, offline, in the mirror; online the mirror keeps its entry (see "## Left out"). | high, not executed | EventDetails.GalleryTwiceThenDelete | EventDetails.GalleryTwiceThenDeleteByUri |
| frontend/AuthContext.js:130-131 | `updateUserName` stores the server's user document as `user`. That document has `_id` but no `user_id`, so `user.user_id` becomes undefined. | A rename that succeeds, followed by `toggleNotifications` with the backend confirming: the guard `user && user.user_id` fails and the preference stays. | The session user keeps its `user_id` after a rename. | high, not executed | Session.RenameThenToggle | Session.RenameKeepingIdThenToggle |

After a rename as written, the screens also receive an undefined `userId`, which has two more consequences:

- A chat message is then sent without an author. The server's required-author check answers 500.
- `isEventOwner` compares `userId` with the owner id and becomes false for the user's own events.

The corrected rename is `Session.AuthContext.UpdateUserNameKeepingId`. The corrected delete is `EventDetails.EventDetails.HandleDeleteImageByUri` over `LocalStore.LocalDb.DeleteImageLocalByUri`, proved to remove exactly the pressed image in `EventDetails.DeleteByUriKeepsOthers`. The as-written delete is also shown at the level of the filter, offline in `EventDetails.OfflineDeleteRemovesEveryLocalImage` and online, on screen, in `EventDetails.OnlineDeleteEmptiesScreenList`.
