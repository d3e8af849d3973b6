/**
 * The client's single Socket.IO connection (`frontend/services/socket.js`): connecting
 * joins a room, disconnecting announces leaving it; both are guarded by the connected
 * flag.
 */
module Socket {
  /** What the client sends over the socket. */
  datatype ClientEmit = JoinEvent(room: string) | LeaveEvent(room: string)

  class ClientSocket {
    var connected: bool
    /** Everything emitted so far, oldest first. */
    var emits: seq<ClientEmit>

    /** `io(SOCKET_URL, { autoConnect: false })`: created disconnected. */
    constructor ()
      ensures !connected && emits == []
    {
      connected := false;
      emits := [];
    }

    /** `connectSocket`: on a disconnected socket, connect and join `roomId`; on a connected
        one, nothing (no new room is joined). */
    method Connect(roomId: string)
      modifies this
      ensures connected
      ensures emits == old(emits) + if old(connected) then [] else [JoinEvent(roomId)]
    {
      if !connected {
        connected := true;
        emits := emits + [JoinEvent(roomId)];
      }
    }

    /** `disconnectSocket`: on a connected socket, announce leaving `roomId`, then
        disconnect; on a disconnected one, nothing. */
    method Disconnect(roomId: string)
      modifies this
      ensures !connected
      ensures emits == old(emits) + if old(connected) then [LeaveEvent(roomId)] else []
    {
      if connected {
        emits := emits + [LeaveEvent(roomId)];
        connected := false;
      }
    }
  }

  /** Disconnecting twice leaves the socket exactly as disconnecting once does. */
  method DisconnectTwice(socket: ClientSocket, roomId: string)
    modifies socket
    ensures !socket.connected
    ensures socket.emits == old(socket.emits) + if old(socket.connected) then [LeaveEvent(roomId)] else []
  {
    socket.Disconnect(roomId);
    socket.Disconnect(roomId);
  }

  /** Opening a second chat while the socket is still connected joins no room for it. */
  method ConnectWhileConnected(socket: ClientSocket, first: string, second: string)
    modifies socket
    ensures socket.connected
    ensures socket.emits == old(socket.emits) + if old(socket.connected) then [] else [JoinEvent(first)]
  {
    socket.Connect(first);
    socket.Connect(second);
  }
}
