/**
 * The chat path on the server (`backend/controllers/messageController.js`, and the room
 * join in `backend/index.js`): messages are saved first and only then broadcast to the
 * room named after their event; reads return one event's messages in timestamp order.
 */
module Messages {
  import opened Js

  type Id = string
  type SocketId = string

  /** A saved message: its event, its author, its text and its `timestamp` (the clock
      reading at save time, in milliseconds). */
  datatype Message = Message(id: Id, event: Id, author: Id, text: string, timestamp: int)

  /** One `messageReceived` emission: the room it went to, the sockets in that room at
      that moment, and the message. */
  datatype Emission = Emission(room: Id, recipients: set<SocketId>, message: Message)

  predicate SortedByTime(s: seq<Message>) {
    forall i, j :: 0 <= i < j < |s| ==> s[i].timestamp <= s[j].timestamp
  }

  /** Places `m` in front of the first later message of a sorted sequence. */
  function InsertByTime(m: Message, s: seq<Message>): (r: seq<Message>)
    requires SortedByTime(s)
    ensures SortedByTime(r)
    ensures multiset(r) == multiset(s) + multiset{m}
    ensures forall k :: 0 <= k < |r| ==> r[k] == m || r[k] in s
  {
    if s == [] then [m]
    else if m.timestamp <= s[0].timestamp then
      SortedCons(m, s);
      [m] + s
    else
      var rest := InsertByTime(m, s[1..]);
      EarliestStaysFirst(m, s, rest);
      assert s == [s[0]] + s[1..];
      [s[0]] + rest
  }

  /** A message no later than every message of a sorted sequence can go in front of it. */
  lemma {:induction false} SortedCons(x: Message, s: seq<Message>)
    requires SortedByTime(s)
    requires forall k :: 0 <= k < |s| ==> x.timestamp <= s[k].timestamp
    ensures SortedByTime([x] + s)
  {
    var r := [x] + s;
    forall i, j | 0 <= i < j < |r| ensures r[i].timestamp <= r[j].timestamp {
      assert r[j] == s[j - 1];
      if i > 0 {
        assert r[i] == s[i - 1];
      }
    }
  }

  /** The first message of a sorted sequence stays first when a later message is inserted
      behind it. */
  lemma {:induction false} EarliestStaysFirst(m: Message, s: seq<Message>, rest: seq<Message>)
    requires SortedByTime(s) && s != [] && s[0].timestamp < m.timestamp
    requires SortedByTime(rest)
    requires forall k :: 0 <= k < |rest| ==> rest[k] == m || rest[k] in s[1..]
    ensures SortedByTime([s[0]] + rest)
  {
    forall k | 0 <= k < |rest| ensures s[0].timestamp <= rest[k].timestamp {
      if rest[k] != m {
        var j :| 0 <= j < |s[1..]| && s[1..][j] == rest[k];
        assert s[1..][j] == s[j + 1];
      }
    }
    SortedCons(s[0], rest);
  }

  /** `.sort({ timestamp: 1 })`: ascending by timestamp, keeping every message. */
  function SortByTime(s: seq<Message>): (r: seq<Message>)
    ensures SortedByTime(r)
    ensures multiset(r) == multiset(s)
  {
    if s == [] then []
    else
      assert s == [s[0]] + s[1..];
      InsertByTime(s[0], SortByTime(s[1..]))
  }

  /** `Message.find({ event: eventId })` before sorting: the messages of that event, in
      collection order. */
  function OfEvent(messages: seq<Message>, eventId: Id): (r: seq<Message>)
    ensures forall m :: m in r <==> m in messages && m.event == eventId
  {
    var ofEvent := (m: Message) => m.event == eventId;
    FilterMembers(messages, ofEvent);
    Filter(messages, ofEvent)
  }

  class ChatServer {
    /** The `messages` collection, in insertion order. */
    var messages: seq<Message>
    /** Socket.IO rooms: the sockets that joined each event's room. */
    var rooms: map<Id, set<SocketId>>
    /** Every `messageReceived` emission so far, oldest first. */
    var emitted: seq<Emission>

    constructor ()
      ensures messages == [] && rooms == map[] && emitted == []
    {
      messages := [];
      rooms := map[];
      emitted := [];
    }

    function Members(room: Id): (sockets: set<SocketId>)
      reads this
      ensures room !in rooms ==> sockets == {}
      ensures room in rooms ==> sockets == rooms[room]
    {
      if room in rooms then rooms[room] else {}
    }

    /** The `joinEvent` socket handler: `socket.join(eventId)`. */
    method JoinEvent(socket: SocketId, eventId: Id)
      modifies this
      ensures rooms == old(rooms)[eventId := old(Members(eventId)) + {socket}]
      ensures messages == old(messages) && emitted == old(emitted)
    {
      rooms := rooms[eventId := Members(eventId) + {socket}];
    }

    /** `saveMessage`. The event, the author and a non-empty text are required (a missing one
        fails validation); `dbUp` is whether the database accepts the write, `newId` and
        `now` the id and timestamp it gives the document. Answers 201 with the saved message
        after saving it and broadcasting it to the event's room, or 500 with neither. */
    method SaveMessage(eventId: Option<Id>, author: Option<Id>, text: Option<string>,
                       newId: Id, now: int, dbUp: bool)
      returns (status: int, messageData: Option<Message>)
      modifies this
      ensures rooms == old(rooms)
      ensures status == 201 <==> dbUp && eventId.Some? && author.Some? && Truthy(text)
      ensures status != 201 ==>
        status == 500 && messageData.None? && messages == old(messages) && emitted == old(emitted)
      ensures status == 201 ==>
        var m := Message(newId, eventId.value, author.value, text.value, now);
        messageData == Some(m)
        && messages == old(messages) + [m]
        && emitted == old(emitted) + [Emission(eventId.value, old(Members(eventId.value)), m)]
    {
      if !dbUp || eventId.None? || author.None? || !Truthy(text) {
        return 500, None;
      }
      var message := Message(newId, eventId.value, author.value, text.value, now);
      messages := messages + [message];
      emitted := emitted + [Emission(eventId.value, Members(eventId.value), message)];
      return 201, Some(message);
    }

    /** `getMessages`: the messages of one event, in non-decreasing timestamp order. */
    function GetMessages(eventId: Id): (r: seq<Message>)
      reads this
      ensures SortedByTime(r)
      ensures forall k :: 0 <= k < |r| ==> r[k].event == eventId
      ensures multiset(r) == multiset(OfEvent(messages, eventId))
    {
      var ofEvent := OfEvent(messages, eventId);
      var r := SortByTime(ofEvent);
      assert forall k :: 0 <= k < |r| ==> r[k] in multiset(ofEvent);
      r
    }
  }

  /** Saving a message adds it to the reads of its own event and leaves the reads of every
      other event as they were. */
  lemma {:induction false} SaveAffectsOnlyItsEvent(messages: seq<Message>, m: Message, eventId: Id)
    ensures OfEvent(messages + [m], eventId) ==
            OfEvent(messages, eventId) + if m.event == eventId then [m] else []
  {
    var p := (x: Message) => x.event == eventId;
    FilterAppend(messages, [m], p);
    assert Filter([m], p) == if m.event == eventId then [m] else [];
  }
}
