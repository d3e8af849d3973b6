/**
 * The chat screen (`frontend/screens/ChatModal.js`): the `messages` list, replaced by
 * the history when the chat opens and appended to by the sender's own sends and by every
 * broadcast, and the `newMessage` input.
 */
module ChatView {
  import opened Js
  import Messages
  import Socket

  class Chat {
    const eventId: Messages.Id
    /** The `userId` prop: the author sent with every message. */
    const userId: Option<Messages.Id>
    var messages: seq<Messages.Message>
    var newMessage: string

    constructor (eventId: Messages.Id, userId: Option<Messages.Id>)
      ensures this.eventId == eventId && this.userId == userId
      ensures messages == [] && newMessage == ""
    {
      this.eventId := eventId;
      this.userId := userId;
      messages := [];
      newMessage := "";
    }

    /** The effect when the chat becomes visible: connect (joining the event's room if the
        socket was disconnected), then load the history; a failed load keeps the list. */
    method Open(socket: Socket.ClientSocket, history: Remote<seq<Messages.Message>>)
      modifies this, socket
      ensures newMessage == old(newMessage)
      ensures messages == if history.Returned? then history.value else old(messages)
      ensures socket.connected
      ensures socket.emits == old(socket.emits) + if old(socket.connected) then [] else [Socket.JoinEvent(eventId)]
    {
      socket.Connect(eventId);
      match history
      case Returned(data) => messages := data;
      case Threw =>
    }

    /** The effect's cleanup when the chat closes. */
    method Close(socket: Socket.ClientSocket)
      modifies socket
      ensures !socket.connected
      ensures socket.emits == old(socket.emits) + if old(socket.connected) then [Socket.LeaveEvent(eventId)] else []
    {
      socket.Disconnect(eventId);
    }

    /** The `messageReceived` listener: a message is appended, a null or undefined payload is
        ignored. */
    method Receive(message: Option<Messages.Message>)
      modifies this
      ensures newMessage == old(newMessage)
      ensures messages == old(messages) + if message.Some? then [message.value] else []
    {
      if message.Some? {
        messages := messages + [message.value];
      }
    }

    /** `handleSendMessage`: blank input sends nothing; otherwise the answer's `messageData`,
        when present, is appended and the input cleared. A request that throws, or an answer
        without `messageData`, changes nothing. */
    method HandleSendMessage(reply: Remote<Option<Messages.Message>>)
      modifies this
      ensures IsBlank(old(newMessage)) ==> messages == old(messages) && newMessage == old(newMessage)
      ensures !IsBlank(old(newMessage)) && reply.Returned? && reply.value.Some? ==>
        messages == old(messages) + [reply.value.value] && newMessage == ""
      ensures !(reply.Returned? && reply.value.Some?) ==> messages == old(messages) && newMessage == old(newMessage)
    {
      if IsBlank(newMessage) {
        return;
      }
      match reply
      case Threw =>
      case Returned(data) =>
        if data.Some? {
          messages := messages + [data.value];
          newMessage := "";
        }
    }
  }

  /** The sender's socket is in the event's room, so its own message arrives twice: once
      from the answer to its request and once from the broadcast. */
  method SendOwnMessage(chat: Chat, server: Messages.ChatServer, mySocket: Messages.SocketId,
                        newId: Messages.Id, now: int)
    requires chat.userId.Some? && !IsBlank(chat.newMessage)
    requires mySocket in server.Members(chat.eventId)
    modifies chat, server
    ensures var m := Messages.Message(newId, chat.eventId, chat.userId.value, old(chat.newMessage), now);
            chat.messages == old(chat.messages) + [m, m]
            && |server.emitted| == |old(server.emitted)| + 1
            && server.emitted[|server.emitted| - 1] == Messages.Emission(chat.eventId, old(server.Members(chat.eventId)), m)
            && mySocket in server.emitted[|server.emitted| - 1].recipients
  {
    var text := chat.newMessage;
    BlankIffAllSpace(text);
    var status, messageData := server.SaveMessage(Some(chat.eventId), chat.userId, Some(text), newId, now, true);
    chat.HandleSendMessage(Returned(messageData));
    var broadcast := server.emitted[|server.emitted| - 1];
    chat.Receive(Some(broadcast.message));
  }
}
