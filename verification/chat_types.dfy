/** The records exchanged between the server and its clients (the `User`
    and `Message` interfaces). Dates are milliseconds since the epoch. */
module ChatTypes {
  import opened Wrappers

  /** A connection's presence entry, keyed by the connection id. */
  datatype User = User(id: string, username: string, isOnline: bool, lastSeen: Option<int>)

  datatype MessageKind = Text | File

  /** File metadata carried with a file message; the bytes never pass through the hub. */
  datatype FileInfo = FileInfo(name: string, size: int, url: string, mimeType: string)

  /** A chat message as stored in the history and broadcast to clients. */
  datatype Message = Message(
    id: string,
    userId: string,
    username: string,
    content: string,
    timestamp: int,
    kind: MessageKind,
    fileInfo: Option<FileInfo>)

  /** What a client sends with `send_message`: a message whose `id` and
      `timestamp` may be present (with any value) or absent. */
  datatype ClientMessage = ClientMessage(
    id: Option<string>,
    userId: string,
    username: string,
    content: string,
    timestamp: Option<int>,
    kind: MessageKind,
    fileInfo: Option<FileInfo>)
}

/** The socket protocol: commands a connection sends to the hub, events the
    hub emits, and to whom each event is addressed. */
module Protocol {
  import opened ChatTypes

  /** `socket.emit` (the requester only), `io.emit` (every connection) or
      `socket.broadcast.emit` (every connection except the requester). */
  datatype Audience = Requester | Everyone | Others

  datatype Payload =
    | UsernameTaken(reason: string)
    | UserJoined(user: User)
    | UsersList(users: seq<User>)
    | MessagesHistory(messages: seq<Message>)
    | UsersUpdate(users: seq<User>)
    | NewMessage(message: Message)
    | UserTyping(name: string)
    | UserStopTyping(name: string)
    | UserLeft(user: User)

  datatype Event = Event(audience: Audience, payload: Payload)

  /** The socket handlers the hub registers; `Disconnect` is raised by the transport. */
  datatype Command =
    | Join(username: string)
    | SendMessage(data: ClientMessage)
    | TypingStart(name: string)
    | TypingStop(name: string)
    | Disconnect

  /** Whether an event reaches a given connection: `isRequester` tells
      whether that connection issued the command. */
  predicate Reaches(e: Event, isRequester: bool) {
    match e.audience
    case Requester => isRequester
    case Everyone => true
    case Others => !isRequester
  }

}
