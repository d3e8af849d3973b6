/**
 * The on-device mirror (`frontend/database/db.js`): the SQLite tables `users` and
 * `events`, kept as sequences of rows in insertion order. The `participants`,
 * `images` and `files` columns hold JSON text (or NULL); each operation reads the
 * text, parses it, changes the array (`push`, `filter`) and writes it back.
 */
module LocalStore {
  import opened Js
  import opened Json

  datatype UserRow = UserRow(userId: string, name: string, email: string, password: string)

  /** An element of the `images` array: `{ uri, backendId }`; an undefined backendId is
      dropped from the JSON text by `JSON.stringify`. */
  datatype ImageEntry = ImageEntry(uri: string, backendId: JsValue)

  /** A row of `events`. The list columns are JSON text, `None` standing for NULL. */
  datatype EventRow = EventRow(
    eventId: string, title: string, description: string, startDate: string, endDate: string,
    userId: string, participants: Option<string>, images: Option<string>, files: Option<string>)

  /** One element of what `getAllEvents` returns. `None` in a list field is the `null` that
      `JSON.parse` makes of a NULL column. */
  datatype EventView = EventView(
    id: string, title: string, description: string, startDate: string, endDate: string,
    ownerId: string, ownerName: string,
    participants: Option<seq<string>>, images: Option<seq<ImageEntry>>, files: Option<seq<string>>)

  // ---------------------------------------------------------------- JSON columns

  function ListItems<T>(xs: seq<T>, enc: T -> Value): seq<Value> {
    if xs == [] then [] else [enc(xs[0])] + ListItems(xs[1..], enc)
  }

  function DecodeItems<T>(items: seq<Value>, dec: Value -> Option<T>): Option<seq<T>> {
    if items == [] then Some([])
    else
      match (dec(items[0]), DecodeItems(items[1..], dec))
      case (Some(x), Some(xs)) => Some([x] + xs)
      case _ => None
  }

  /** `JSON.stringify(xs)` for an array whose elements are written by `enc`. */
  function Encode<T>(xs: seq<T>, enc: T -> Value): string {
    Stringify(Arr(ListItems(xs, enc)))
  }

  /** `JSON.parse(text)` read as an array whose elements `dec` accepts; `None` when the text
      is not such an array. */
  function Decode<T>(text: string, dec: Value -> Option<T>): Option<seq<T>> {
    match Parse(text)
    case Some(Arr(items)) => DecodeItems(items, dec)
    case _ => None
  }

  function StrValue(s: string): Value {
    Str(s)
  }

  function AsStr(v: Value): Option<string> {
    if v.Str? then Some(v.s) else None
  }

  function ImageValue(e: ImageEntry): Value {
    Obj([Member("uri", Str(e.uri))] +
        match e.backendId
        case Undefined => []
        case Null => [Member("backendId", Value.Null)]
        case Text(b) => [Member("backendId", Str(b))])
  }

  function AsImage(v: Value): Option<ImageEntry> {
    match v
    case Obj(ms) =>
      (match Get(ms, "uri")
       case Some(Str(u)) =>
         (match Get(ms, "backendId")
          case None => Some(ImageEntry(u, Undefined))
          case Some(Null) => Some(ImageEntry(u, JsValue.Null))
          case Some(Str(b)) => Some(ImageEntry(u, Text(b)))
          case Some(_) => None)
       case _ => None)
    case _ => None
  }

  lemma {:induction false} ImageRoundTrip(e: ImageEntry)
    ensures AsImage(ImageValue(e)) == Some(e)
  {
    var ms := ImageValue(e).members;
    var uri := Member("uri", Str(e.uri));
    if e.backendId.Undefined? {
      assert ms == [uri];
      assert Get(ms, "backendId") == Get([], "backendId");
    } else {
      assert ms[..1] == [uri];
      assert Get(ms, "uri") == Get([uri], "uri");
    }
  }

  lemma {:induction false} ItemsRoundTrip<T>(xs: seq<T>, enc: T -> Value, dec: Value -> Option<T>)
    requires forall x :: dec(enc(x)) == Some(x)
    ensures DecodeItems(ListItems(xs, enc), dec) == Some(xs)
  {
    if xs != [] {
      ItemsRoundTrip(xs[1..], enc, dec);
      assert ListItems(xs, enc)[1..] == ListItems(xs[1..], enc);
      assert [xs[0]] + xs[1..] == xs;
    }
  }

  /** Text written by `JSON.stringify` is read back by `JSON.parse` as the same array. */
  lemma {:induction false} EncodeDecode<T>(xs: seq<T>, enc: T -> Value, dec: Value -> Option<T>)
    requires forall x :: dec(enc(x)) == Some(x)
    ensures Decode(Encode(xs, enc), dec) == Some(xs)
    ensures Encode(xs, enc) != ""
  {
    ParseStringify(Arr(ListItems(xs, enc)));
    ItemsRoundTrip(xs, enc, dec);
    FirstChar(Arr(ListItems(xs, enc)));
  }

  /** A list column holds NULL or JSON text of the right shape. */
  predicate ColumnOk<T>(col: Option<string>, dec: Value -> Option<T>) {
    col.None? || Decode(col.value, dec).Some?
  }

  /** `col ? JSON.parse(col) : []` */
  function OrEmpty<T>(col: Option<string>, dec: Value -> Option<T>): seq<T>
    requires ColumnOk(col, dec)
  {
    if col.Some? && col.value != "" then Decode(col.value, dec).value else []
  }

  /** `JSON.parse(col)`: NULL reads as `null`. */
  function Parsed<T>(col: Option<string>, dec: Value -> Option<T>): Option<seq<T>>
    requires ColumnOk(col, dec)
  {
    if col.None? then None else Decode(col.value, dec)
  }

  function Column<T>(xs: seq<T>, enc: T -> Value): Option<string> {
    Some(Encode(xs, enc))
  }

  /** A column written from a list reads back as that list, both through the
      `col ? JSON.parse(col) : []` guard and through a bare `JSON.parse`. */
  lemma {:induction false} ColumnRoundTrip<T>(xs: seq<T>, enc: T -> Value, dec: Value -> Option<T>)
    requires forall x :: dec(enc(x)) == Some(x)
    ensures ColumnOk(Column(xs, enc), dec)
    ensures OrEmpty(Column(xs, enc), dec) == xs
    ensures Parsed(Column(xs, enc), dec) == Some(xs)
  {
    EncodeDecode(xs, enc, dec);
  }

  lemma {:induction false} StringColumn(xs: seq<string>)
    ensures ColumnOk(Column(xs, StrValue), AsStr)
    ensures OrEmpty(Column(xs, StrValue), AsStr) == xs
    ensures Parsed(Column(xs, StrValue), AsStr) == Some(xs)
  {
    ColumnRoundTrip(xs, StrValue, AsStr);
  }

  lemma {:induction false} ImageColumn(xs: seq<ImageEntry>)
    ensures ColumnOk(Column(xs, ImageValue), AsImage)
    ensures OrEmpty(Column(xs, ImageValue), AsImage) == xs
    ensures Parsed(Column(xs, ImageValue), AsImage) == Some(xs)
  {
    forall e | true ensures AsImage(ImageValue(e)) == Some(e) {
      ImageRoundTrip(e);
    }
    ColumnRoundTrip(xs, ImageValue, AsImage);
  }

  // ---------------------------------------------------------------- rows

  predicate WellFormed(row: EventRow) {
    ColumnOk(row.participants, AsStr) && ColumnOk(row.images, AsImage) && ColumnOk(row.files, AsStr)
  }

  function Participants(row: EventRow): seq<string>
    requires WellFormed(row)
  {
    OrEmpty(row.participants, AsStr)
  }

  function Images(row: EventRow): seq<ImageEntry>
    requires WellFormed(row)
  {
    OrEmpty(row.images, AsImage)
  }

  function Files(row: EventRow): seq<string>
    requires WellFormed(row)
  {
    OrEmpty(row.files, AsStr)
  }

  /** The row after `UPDATE events SET participants = JSON.stringify(ps)`. */
  function WithParticipants(row: EventRow, ps: seq<string>): (r: EventRow)
    ensures WellFormed(row) ==> WellFormed(r) && Participants(r) == ps
    ensures r.(participants := row.participants) == row
  {
    StringColumn(ps);
    row.(participants := Column(ps, StrValue))
  }

  /** The row after `UPDATE events SET images = JSON.stringify(es)`. */
  function WithImages(row: EventRow, es: seq<ImageEntry>): (r: EventRow)
    ensures WellFormed(row) ==> WellFormed(r) && Images(r) == es
    ensures r.(images := row.images) == row
  {
    ImageColumn(es);
    row.(images := Column(es, ImageValue))
  }

  /** The row after `UPDATE events SET files = JSON.stringify(fs)`. */
  function WithFiles(row: EventRow, fs: seq<string>): (r: EventRow)
    ensures WellFormed(row) ==> WellFormed(r) && Files(r) == fs
    ensures r.(files := row.files) == row
  {
    StringColumn(fs);
    row.(files := Column(fs, StrValue))
  }

  /** The row `insertEvent` writes: the three lists go through `JSON.stringify`. */
  function NewRow(eventId: string, title: string, description: string, startDate: string, endDate: string,
                  userId: string, participants: seq<string>, images: seq<ImageEntry>, files: seq<string>): EventRow
  {
    EventRow(eventId, title, description, startDate, endDate, userId,
             Column(participants, StrValue), Column(images, ImageValue), Column(files, StrValue))
  }

  /** `list.filter(x => x !== value)`: every entry but `value`, in order; when `value` does
      not occur the list comes back unchanged. */
  function Without(xs: seq<string>, value: string): (r: seq<string>)
    ensures forall x :: x in r <==> x in xs && x != value
    ensures value !in xs <==> |r| == |xs|
    ensures value !in xs ==> r == xs
  {
    var other := x => x != value;
    FilterKeepsAll(xs, other);
    Filter(xs, other)
  }

  /** The position of the row with the given `event_id`, or -1. */
  function FindEvent(rows: seq<EventRow>, eventId: string): (i: int)
    ensures -1 <= i < |rows|
    ensures 0 <= i ==> rows[i].eventId == eventId
    ensures i < 0 <==> forall k :: 0 <= k < |rows| ==> rows[k].eventId != eventId
  {
    if rows == [] then -1
    else if rows[|rows| - 1].eventId == eventId then |rows| - 1
    else FindEvent(rows[..|rows| - 1], eventId)
  }

  /** Rewriting columns other than `event_id` does not move any row as seen by a lookup. */
  lemma {:induction false} SameIds(a: seq<EventRow>, b: seq<EventRow>, eventId: string)
    requires |a| == |b| && forall k :: 0 <= k < |a| ==> a[k].eventId == b[k].eventId
    ensures FindEvent(a, eventId) == FindEvent(b, eventId)
  {
    if a != [] {
      SameIds(a[..|a| - 1], b[..|b| - 1], eventId);
    }
  }

  /** The first user row satisfying the lookup, as `result[0]` of a SELECT. */
  function FirstUser(users: seq<UserRow>, byEmail: bool, key: string): (r: Option<UserRow>)
    ensures r.Some? ==> r.value in users && (if byEmail then r.value.email else r.value.userId) == key
    ensures r.None? <==> forall k :: 0 <= k < |users| ==> (if byEmail then users[k].email else users[k].userId) != key
  {
    if users == [] then None
    else if (if byEmail then users[0].email else users[0].userId) == key then Some(users[0])
    else FirstUser(users[1..], byEmail, key)
  }

  /** The owner name `getAllEvents` reports: the name of the user row with the event's
      `user_id`, or 'Unknown'. */
  function OwnerName(users: seq<UserRow>, userId: string): (name: string)
    ensures (forall k :: 0 <= k < |users| ==> users[k].userId != userId) ==> name == "Unknown"
    ensures (exists k :: 0 <= k < |users| && users[k].userId == userId) ==>
              exists k :: 0 <= k < |users| && users[k].userId == userId && users[k].name == name
  {
    match FirstUser(users, false, userId)
    case Some(u) => u.name
    case None => "Unknown"
  }

  /** The element `getAllEvents` builds for one row. */
  function ViewOf(row: EventRow, users: seq<UserRow>): EventView
    requires WellFormed(row)
  {
    EventView(row.eventId, row.title, row.description, row.startDate, row.endDate,
              row.userId, OwnerName(users, row.userId),
              Parsed(row.participants, AsStr), Parsed(row.images, AsImage), Parsed(row.files, AsStr))
  }

  /** What `insertEvent` writes is what `getAllEvents` reads back: the same lists,
      since they go through `JSON.stringify` and `JSON.parse`. */
  lemma {:induction false} InsertedRowReadsBack(eventId: string, title: string, description: string, startDate: string,
                             endDate: string, userId: string, participants: seq<string>,
                             images: seq<ImageEntry>, files: seq<string>, users: seq<UserRow>)
    ensures var row := NewRow(eventId, title, description, startDate, endDate, userId, participants, images, files);
            WellFormed(row)
            && ViewOf(row, users) == EventView(eventId, title, description, startDate, endDate, userId,
                                               OwnerName(users, userId), Some(participants), Some(images), Some(files))
            && Participants(row) == participants && Images(row) == images && Files(row) == files
  {
    StringColumn(participants);
    ImageColumn(images);
    StringColumn(files);
  }

  /** The events table's PRIMARY KEY on `event_id`, and list columns the app can read. */
  predicate ValidRows(rows: seq<EventRow>) {
    (forall i, j :: 0 <= i < j < |rows| ==> rows[i].eventId != rows[j].eventId)
    && (forall i :: 0 <= i < |rows| ==> WellFormed(rows[i]))
  }

  /** Deleting the row at `i` keeps the table valid and removes exactly the rows with its id. */
  lemma {:induction false} RemoveRow(rows: seq<EventRow>, i: nat)
    requires i < |rows| && ValidRows(rows)
    ensures ValidRows(RemoveAt(rows, i))
    ensures forall r :: r in RemoveAt(rows, i) <==> r in rows && r.eventId != rows[i].eventId
  {
    var after := RemoveAt(rows, i);
    assert |after| == |rows| - 1;
    forall a | 0 <= a < |after| ensures after[a] == rows[if a < i then a else a + 1] {
    }
    forall r ensures r in after <==> r in rows && r.eventId != rows[i].eventId {
      if r in rows && r.eventId != rows[i].eventId {
        var k :| 0 <= k < |rows| && rows[k] == r;
        if k < i { assert after[k] == r; } else { assert after[k - 1] == r; }
      }
    }
  }

  /** Rewriting one row in place, keeping its id and a readable value, keeps the table valid
      and every lookup by id where it was. */
  lemma {:induction false} ReplaceRow(rows: seq<EventRow>, i: nat, row: EventRow, eventId: string)
    requires i < |rows| && ValidRows(rows) && row.eventId == rows[i].eventId && WellFormed(row)
    ensures ValidRows(rows[i := row])
    ensures FindEvent(rows[i := row], eventId) == FindEvent(rows, eventId)
  {
    SameIds(rows, rows[i := row], eventId);
  }

  /** Appending a readable row whose id no row has keeps the table valid. */
  lemma {:induction false} AppendRow(rows: seq<EventRow>, row: EventRow)
    requires ValidRows(rows) && WellFormed(row) && FindEvent(rows, row.eventId) < 0
    ensures ValidRows(rows + [row])
  {
    var after := rows + [row];
    forall i, j | 0 <= i < j < |after| ensures after[i].eventId != after[j].eventId {
      if j == |rows| {
        assert after[i] == rows[i];
      } else {
        assert after[i] == rows[i] && after[j] == rows[j];
      }
    }
  }

  // ---------------------------------------------------------------- table updates

  /** `images.filter(img => img.backendId !== backendId)` */
  function WithoutBackendId(es: seq<ImageEntry>, backendId: JsValue): seq<ImageEntry> {
    Filter(es, (img: ImageEntry) => img.backendId != backendId)
  }

  /** `images.filter(img => img.uri !== uri)` */
  function WithoutUri(es: seq<ImageEntry>, uri: string): seq<ImageEntry> {
    Filter(es, (img: ImageEntry) => img.uri != uri)
  }

  /** The table after `DELETE FROM events WHERE event_id = ?`. */
  function EventDeleted(rows: seq<EventRow>, eventId: string): seq<EventRow> {
    var i := FindEvent(rows, eventId);
    if i < 0 then rows else RemoveAt(rows, i)
  }

  /** The table after `addParticipantLocal`: the email pushed onto the row's list. */
  function ParticipantAdded(rows: seq<EventRow>, eventId: string, email: string): seq<EventRow>
    requires ValidRows(rows)
  {
    var i := FindEvent(rows, eventId);
    if i < 0 then rows else rows[i := WithParticipants(rows[i], Participants(rows[i]) + [email])]
  }

  /** The table after `removeParticipantLocal`: rewritten only when the email was listed. */
  function ParticipantRemoved(rows: seq<EventRow>, eventId: string, email: string): seq<EventRow>
    requires ValidRows(rows)
  {
    var i := FindEvent(rows, eventId);
    if i < 0 || email !in Participants(rows[i]) then rows
    else rows[i := WithParticipants(rows[i], Without(Participants(rows[i]), email))]
  }

  /** The table after `addImageLocal`: one entry pushed onto the row's images. */
  function ImageAdded(rows: seq<EventRow>, eventId: string, entry: ImageEntry): seq<EventRow>
    requires ValidRows(rows)
  {
    var i := FindEvent(rows, eventId);
    if i < 0 then rows else rows[i := WithImages(rows[i], Images(rows[i]) + [entry])]
  }

  /** The table after `deleteImageLocal`: a row with a non-empty images column keeps the
      entries with another backendId. */
  function ImagesDeleted(rows: seq<EventRow>, eventId: string, backendId: JsValue): seq<EventRow>
    requires ValidRows(rows)
  {
    var i := FindEvent(rows, eventId);
    if i < 0 || !Truthy(rows[i].images) then rows
    else rows[i := WithImages(rows[i], WithoutBackendId(Images(rows[i]), backendId))]
  }

  /** The table after the delete by uri: a row with a non-empty images column keeps the
      entries with another uri. */
  function ImagesDeletedByUri(rows: seq<EventRow>, eventId: string, uri: string): seq<EventRow>
    requires ValidRows(rows)
  {
    var i := FindEvent(rows, eventId);
    if i < 0 || !Truthy(rows[i].images) then rows
    else rows[i := WithImages(rows[i], WithoutUri(Images(rows[i]), uri))]
  }

  /** The table after `addFileLocal`: the uri pushed onto the row's files. */
  function FileAdded(rows: seq<EventRow>, eventId: string, fileUri: string): seq<EventRow>
    requires ValidRows(rows)
  {
    var i := FindEvent(rows, eventId);
    if i < 0 then rows else rows[i := WithFiles(rows[i], Files(rows[i]) + [fileUri])]
  }

  /** The table after `deleteFileLocal`: the row's files without the path, rewritten even
      when nothing matched. */
  function FileDeleted(rows: seq<EventRow>, eventId: string, filePath: string): seq<EventRow>
    requires ValidRows(rows)
  {
    var i := FindEvent(rows, eventId);
    if i < 0 then rows else rows[i := WithFiles(rows[i], Without(Files(rows[i]), filePath))]
  }

  // ---------------------------------------------------------------- the database

  class LocalDb {
    var users: seq<UserRow>
    var events: seq<EventRow>

    /** The PRIMARY KEY and UNIQUE constraints, and list columns the app can read. */
    predicate Valid()
      reads this
    {
      (forall i, j :: 0 <= i < j < |users| ==> users[i].userId != users[j].userId && users[i].email != users[j].email)
      && ValidRows(events)
    }

    /** `initializeDatabase` on a fresh device: both tables empty. */
    constructor ()
      ensures users == [] && events == [] && Valid()
    {
      users := [];
      events := [];
    }

    predicate HasEvent(eventId: string)
      reads this
    {
      FindEvent(events, eventId) >= 0
    }

    /** `insertUser`: fails with SQLite code 19 (`ok` false) and changes nothing when the
        `user_id` or the email is taken; otherwise appends the row. */
    method InsertUser(email: string, password: string, name: string, userId: string) returns (ok: bool)
      requires Valid()
      modifies this
      ensures Valid() && events == old(events)
      ensures ok <==> forall k :: 0 <= k < |old(users)| ==> old(users)[k].userId != userId && old(users)[k].email != email
      ensures ok ==> users == old(users) + [UserRow(userId, name, email, password)]
      ensures !ok ==> users == old(users)
    {
      ok := FirstUser(users, false, userId).None? && FirstUser(users, true, email).None?;
      if ok {
        users := users + [UserRow(userId, name, email, password)];
      }
    }

    /** `findUserByEmail`: the user row with that email, or null. */
    function FindUserByEmail(email: string): (r: Option<UserRow>)
      reads this
      requires Valid()
      ensures r.Some? ==> r.value in users && r.value.email == email
      ensures r.None? <==> forall k :: 0 <= k < |users| ==> users[k].email != email
    {
      FirstUser(users, true, email)
    }

    /** `updateUserNameLocal`: renames the user with that id; no row matches, nothing changes. */
    method UpdateUserNameLocal(userId: string, newName: string)
      requires Valid()
      modifies this
      ensures Valid() && events == old(events) && |users| == |old(users)|
      ensures forall k :: 0 <= k < |users| ==>
        users[k] == if old(users)[k].userId == userId then old(users)[k].(name := newName) else old(users)[k]
    {
      var rows := users;
      users := seq(|rows|, k requires 0 <= k < |rows| =>
                 if rows[k].userId == userId then rows[k].(name := newName) else rows[k]);
    }

    /** `insertEvent`: fails with SQLite code 19 (`ok` false) and leaves the table as it was
        when the `event_id` is taken; otherwise appends the row with its lists stored as JSON. */
    method InsertEvent(eventId: string, title: string, description: string, startDate: string, endDate: string,
                       userId: string, participants: seq<string>, images: seq<ImageEntry>, files: seq<string>)
      returns (ok: bool)
      requires Valid()
      modifies this
      ensures Valid() && users == old(users)
      ensures ok <==> !old(HasEvent(eventId))
      ensures ok ==> events == old(events) + [NewRow(eventId, title, description, startDate, endDate, userId,
                                                     participants, images, files)]
      ensures !ok ==> events == old(events)
    {
      ok := FindEvent(events, eventId) < 0;
      if ok {
        var row := NewRow(eventId, title, description, startDate, endDate, userId, participants, images, files);
        InsertedRowReadsBack(eventId, title, description, startDate, endDate, userId, participants, images, files, users);
        AppendRow(events, row);
        events := events + [row];
      }
    }

    /** `getAllEvents`: one element per row, in table order, with the owner's name looked up
        and the list columns parsed. */
    method GetAllEvents() returns (views: seq<EventView>)
      requires Valid()
      ensures |views| == |events|
      ensures forall k :: 0 <= k < |events| ==> views[k] == ViewOf(events[k], users)
    {
      views := [];
      for i := 0 to |events|
        invariant |views| == i
        invariant forall k :: 0 <= k < i ==> views[k] == ViewOf(events[k], users)
      {
        var row := events[i];
        var userName := "Unknown";
        var owner := FirstUser(users, false, row.userId);
        if owner.Some? {
          userName := owner.value.name;
        }
        var view := EventView(row.eventId, row.title, row.description, row.startDate, row.endDate,
                              row.userId, userName, Parsed(row.participants, AsStr),
                              Parsed(row.images, AsImage), Parsed(row.files, AsStr));
        assert view == ViewOf(row, users);
        views := views + [view];
      }
    }

    /** `updateEventLocal`: sets title, description and both dates of the matching row and
        nothing else. */
    method UpdateEventLocal(eventId: string, title: string, description: string, startDate: string, endDate: string)
      requires Valid()
      modifies this
      ensures Valid() && users == old(users)
      ensures var i := FindEvent(old(events), eventId);
              events == if i < 0 then old(events)
                        else old(events)[i := old(events)[i].(title := title, description := description,
                                                              startDate := startDate, endDate := endDate)]
    {
      var i := FindEvent(events, eventId);
      if i >= 0 {
        var row := events[i].(title := title, description := description, startDate := startDate, endDate := endDate);
        ReplaceRow(events, i, row, eventId);
        events := events[i := row];
      }
    }

    /** `deleteEventLocal`: removes the row with that id; the other rows stay in order. */
    method DeleteEventLocal(eventId: string)
      requires Valid()
      modifies this
      ensures Valid() && users == old(users)
      ensures events == EventDeleted(old(events), eventId)
      ensures !HasEvent(eventId)
      ensures forall r :: r in events <==> r in old(events) && r.eventId != eventId
    {
      var i := FindEvent(events, eventId);
      if i >= 0 {
        RemoveRow(events, i);
        events := RemoveAt(events, i);
      }
    }

    /** `getParticipantsLocal`: the emails stored for the event (handed out wrapped as
        `{ email }`), [] when the row is absent or the column is empty. */
    function GetParticipantsLocal(eventId: string): (ps: seq<string>)
      reads this
      requires Valid()
      ensures !HasEvent(eventId) ==> ps == []
    {
      var i := FindEvent(events, eventId);
      if i < 0 then [] else Participants(events[i])
    }

    /** `getImagesLocal`: the image entries stored for the event, [] when the row is absent
        or the column is empty. */
    function GetImagesLocal(eventId: string): (imgs: seq<ImageEntry>)
      reads this
      requires Valid()
      ensures !HasEvent(eventId) ==> imgs == []
    {
      var i := FindEvent(events, eventId);
      if i < 0 then [] else Images(events[i])
    }

    /** `getFilesLocal`: the file uris stored for the event, [] when the row is absent or
        the column is empty. */
    function GetFilesLocal(eventId: string): (fs: seq<string>)
      reads this
      requires Valid()
      ensures !HasEvent(eventId) ==> fs == []
    {
      var i := FindEvent(events, eventId);
      if i < 0 then [] else Files(events[i])
    }

    /** `addParticipantLocal`: appends the email, duplicate or not; no row, no change. */
    method AddParticipantLocal(eventId: string, email: string)
      requires Valid()
      modifies this
      ensures Valid() && users == old(users)
      ensures events == ParticipantAdded(old(events), eventId, email)
      ensures GetParticipantsLocal(eventId) == old(GetParticipantsLocal(eventId)) + if old(HasEvent(eventId)) then [email] else []
    {
      var i := FindEvent(events, eventId);
      if i >= 0 {
        var current := Participants(events[i]);
        current := current + [email];
        ReplaceRow(events, i, WithParticipants(events[i], current), eventId);
        events := events[i := WithParticipants(events[i], current)];
      }
    }

    /** `removeParticipantLocal`: drops every copy of the email; the row is rewritten only
        when something was dropped. */
    method RemoveParticipantLocal(eventId: string, email: string)
      requires Valid()
      modifies this
      ensures Valid() && users == old(users)
      ensures events == ParticipantRemoved(old(events), eventId, email)
      ensures email !in GetParticipantsLocal(eventId)
      ensures forall p :: p in old(GetParticipantsLocal(eventId)) && p != email ==> p in GetParticipantsLocal(eventId)
    {
      var i := FindEvent(events, eventId);
      if i >= 0 {
        var current := Participants(events[i]);
        var updated := Without(current, email);
        if |updated| != |current| {
          ReplaceRow(events, i, WithParticipants(events[i], updated), eventId);
          events := events[i := WithParticipants(events[i], updated)];
        }
      }
    }

    /** `addImageLocal`: appends one `{ uri, backendId }` entry; with no row the UPDATE
        matches nothing and nothing changes. */
    method AddImageLocal(eventId: string, uri: string, backendId: JsValue)
      requires Valid()
      modifies this
      ensures Valid() && users == old(users)
      ensures events == ImageAdded(old(events), eventId, ImageEntry(uri, backendId))
      ensures GetImagesLocal(eventId) == old(GetImagesLocal(eventId)) + if old(HasEvent(eventId)) then [ImageEntry(uri, backendId)] else []
    {
      var i := FindEvent(events, eventId);
      var current: seq<ImageEntry> := [];
      if i >= 0 && Truthy(events[i].images) {
        current := Images(events[i]);
      }
      current := current + [ImageEntry(uri, backendId)];
      if i >= 0 {
        ReplaceRow(events, i, WithImages(events[i], current), eventId);
        events := events[i := WithImages(events[i], current)];
      }
    }

    /** `deleteImageLocal`: when the row has a non-empty images column, keeps exactly the
        entries whose backendId differs from the argument, in order. */
    method DeleteImageLocal(eventId: string, backendId: JsValue)
      requires Valid()
      modifies this
      ensures Valid() && users == old(users)
      ensures events == ImagesDeleted(old(events), eventId, backendId)
      ensures GetImagesLocal(eventId) == WithoutBackendId(old(GetImagesLocal(eventId)), backendId)
    {
      var i := FindEvent(events, eventId);
      if i >= 0 && Truthy(events[i].images) {
        var current := Images(events[i]);
        var updated := WithoutBackendId(current, backendId);
        ReplaceRow(events, i, WithImages(events[i], updated), eventId);
        events := events[i := WithImages(events[i], updated)];
      }
    }

    /** The delete the image list needs: the entries with the pressed image's uri go, every
        other entry stays, whatever its backendId. */
    method DeleteImageLocalByUri(eventId: string, uri: string)
      requires Valid()
      modifies this
      ensures Valid() && users == old(users)
      ensures events == ImagesDeletedByUri(old(events), eventId, uri)
      ensures GetImagesLocal(eventId) == WithoutUri(old(GetImagesLocal(eventId)), uri)
    {
      var i := FindEvent(events, eventId);
      if i >= 0 && Truthy(events[i].images) {
        var current := Images(events[i]);
        var updated := WithoutUri(current, uri);
        ReplaceRow(events, i, WithImages(events[i], updated), eventId);
        events := events[i := WithImages(events[i], updated)];
      }
    }

    /** `addFileLocal`: appends the file uri; no row, no change. */
    method AddFileLocal(eventId: string, fileUri: string)
      requires Valid()
      modifies this
      ensures Valid() && users == old(users)
      ensures events == FileAdded(old(events), eventId, fileUri)
      ensures GetFilesLocal(eventId) == old(GetFilesLocal(eventId)) + if old(HasEvent(eventId)) then [fileUri] else []
    {
      var i := FindEvent(events, eventId);
      if i >= 0 {
        var current := Files(events[i]);
        current := current + [fileUri];
        ReplaceRow(events, i, WithFiles(events[i], current), eventId);
        events := events[i := WithFiles(events[i], current)];
      }
    }

    /** `deleteFileLocal`: removes every entry equal to the path and nothing else; the row is
        rewritten even when nothing matched. */
    method DeleteFileLocal(eventId: string, filePath: string)
      requires Valid()
      modifies this
      ensures Valid() && users == old(users)
      ensures events == FileDeleted(old(events), eventId, filePath)
      ensures GetFilesLocal(eventId) == Without(old(GetFilesLocal(eventId)), filePath)
    {
      var i := FindEvent(events, eventId);
      if i >= 0 {
        var current := Files(events[i]);
        var updated := Without(current, filePath);
        ReplaceRow(events, i, WithFiles(events[i], updated), eventId);
        events := events[i := WithFiles(events[i], updated)];
      }
    }
  }
}
