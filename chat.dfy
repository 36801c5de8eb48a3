/** Values shared by the server and the browser client of the chat application. */
module Chat {

  datatype Option<+T> = None | Some(value: T)

  /** A socket.io connection id (`socket.id`). */
  type ConnId = string

  /** Message ids are numbers produced by `Date.now()`. */
  type MsgId = int

  /** Reactions as the client receives them: emoji token to the ids that reacted. */
  type Reactions = map<string, seq<ConnId>>

  /** A file sent as a data URL. */
  datatype Attachment = Attachment(name: string, mimeType: string, data: string)

  /** An entry of the server's `users` registry, also the element of a `user_list` payload. */
  datatype User = User(username: string, id: ConnId, room: string)

  /**
   * One chat message as it travels and as the client keeps it. `None` stands for a field
   * that is absent (undefined) in the JavaScript object. `text` is the `message` field.
   */
  datatype Message = Message(
    id: MsgId,
    sender: Option<string>,
    senderId: Option<ConnId>,
    text: string,
    room: Option<string>,
    timestamp: string,
    file: Option<Attachment>,
    isPrivate: bool,
    system: bool,
    readBy: Option<seq<ConnId>>,
    reactions: Option<Reactions>)
}
