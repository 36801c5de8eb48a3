/**
 * The browser side of the connection (`useSocket`): the emitters the UI calls and the
 * handlers that fold inbound events into the `messages`, `users` and `typingUsers` state.
 * The list transforms are pure functions; the hook's state is a class whose handler
 * methods replace a field by such a function of its old value.
 */
module ClientSocket {
  import opened Chat
  import opened Seqs

  /** What the client sends to the server with `socket.emit`. */
  datatype ClientEmit =
    | EmitUserJoin(username: string, room: string)
    | EmitSendMessage(message: string, room: string, file: Option<Attachment>)
    | EmitPrivateMessage(to: ConnId, message: string)
    | EmitTyping(isTyping: bool)
    | EmitMessageRead(messageId: MsgId)
    | EmitReaction(messageId: MsgId, reaction: string)

  /**
   * The readers after a read receipt: a missing list becomes just `userId`; an existing one
   * gets `userId` appended and is then made duplicate-free as a JavaScript `Set` would. A
   * reader already present leaves a duplicate-free list as it was; a new one goes last.
   */
  function AddReader(readBy: Option<seq<ConnId>>, userId: ConnId): (r: seq<ConnId>)
    ensures NoDup(r) && userId in r
    ensures forall x | x in r :: x == userId || (readBy.Some? && x in readBy.value)
    ensures readBy.Some? ==> forall x | x in readBy.value :: x in r
    ensures readBy.None? ==> r == [userId]
    ensures readBy.Some? && NoDup(readBy.value) ==>
      r == if userId in readBy.value then readBy.value else readBy.value + [userId]
  {
    match readBy
    case None => [userId]
    case Some(rb) =>
      assert (rb + [userId])[..|rb|] == rb;
      Dedup(rb + [userId])
  }

  /**
   * `message_read_update`: every message whose id is `messageId` gets `userId` among its
   * readers; nothing else about it changes, other messages stay as they are, and the list
   * keeps its length and order.
   */
  function ApplyReadUpdate(msgs: seq<Message>, messageId: MsgId, userId: ConnId): (r: seq<Message>)
    ensures |r| == |msgs|
    ensures forall i | 0 <= i < |msgs| && msgs[i].id != messageId :: r[i] == msgs[i]
    ensures forall i | 0 <= i < |msgs| && msgs[i].id == messageId ::
      && r[i] == msgs[i].(readBy := r[i].readBy)
      && r[i].readBy.Some? && NoDup(r[i].readBy.value) && userId in r[i].readBy.value
      && (forall x | x in r[i].readBy.value :: x == userId || (msgs[i].readBy.Some? && x in msgs[i].readBy.value))
      && (msgs[i].readBy.Some? ==> forall x | x in msgs[i].readBy.value :: x in r[i].readBy.value)
  {
    seq(|msgs|, i requires 0 <= i < |msgs| =>
      if msgs[i].id == messageId then msgs[i].(readBy := Some(AddReader(msgs[i].readBy, userId)))
      else msgs[i])
  }

  /** The same read update twice is the update once. */
  lemma {:induction false} ReadUpdateIdempotent(msgs: seq<Message>, messageId: MsgId, userId: ConnId)
    ensures ApplyReadUpdate(ApplyReadUpdate(msgs, messageId, userId), messageId, userId)
         == ApplyReadUpdate(msgs, messageId, userId)
  {
    var once := ApplyReadUpdate(msgs, messageId, userId);
    var twice := ApplyReadUpdate(once, messageId, userId);
    forall i | 0 <= i < |msgs| ensures twice[i] == once[i] {
      if msgs[i].id == messageId {
        assert AddReader(once[i].readBy, userId) == once[i].readBy.value;
      }
    }
  }

  /**
   * `message_reaction_update`: the messages whose id is `messageId` get the received
   * reactions in place of theirs; every other field and every other message is kept.
   */
  function ApplyReactionUpdate(msgs: seq<Message>, messageId: MsgId, reactions: Reactions): (r: seq<Message>)
    ensures |r| == |msgs|
    ensures forall i | 0 <= i < |msgs| && msgs[i].id != messageId :: r[i] == msgs[i]
    ensures forall i | 0 <= i < |msgs| && msgs[i].id == messageId ::
      r[i].reactions == Some(reactions) && r[i] == msgs[i].(reactions := r[i].reactions)
  {
    seq(|msgs|, i requires 0 <= i < |msgs| =>
      if msgs[i].id == messageId then msgs[i].(reactions := Some(reactions)) else msgs[i])
  }

  /** The same reaction update twice is the update once. */
  lemma ReactionUpdateIdempotent(msgs: seq<Message>, messageId: MsgId, reactions: Reactions)
    ensures ApplyReactionUpdate(ApplyReactionUpdate(msgs, messageId, reactions), messageId, reactions)
         == ApplyReactionUpdate(msgs, messageId, reactions)
  {
  }

  /** Read and reaction updates touch different fields, so their order does not matter. */
  lemma ReadAndReactionUpdatesCommute(msgs: seq<Message>, messageId: MsgId, userId: ConnId,
                                      other: MsgId, reactions: Reactions)
    ensures ApplyReactionUpdate(ApplyReadUpdate(msgs, messageId, userId), other, reactions)
         == ApplyReadUpdate(ApplyReactionUpdate(msgs, other, reactions), messageId, userId)
  {
  }

  /**
   * The system notice the client synthesises for `user_joined` / `user_left`; `now` and
   * `timestamp` stand for `Date.now()` and the ISO time.
   */
  function PresenceNotice(username: string, joined: bool, now: MsgId, timestamp: string): (m: Message)
    ensures m.system && !m.isPrivate
    ensures m.text == username + (if joined then " joined the chat" else " left the chat")
    ensures m.sender.None? && m.senderId.None? && m.room.None? && m.file.None?
    ensures m.readBy.None? && m.reactions.None?
    ensures m.id == now && m.timestamp == timestamp
  {
    Message(now, None, None, username + (if joined then " joined the chat" else " left the chat"),
            None, timestamp, None, false, true, None, None)
  }

  /** The state of the `useSocket` hook together with what the socket has emitted. */
  class SocketHook {
    var isConnected: bool
    var myId: Option<ConnId>
    var lastMessage: Option<Message>
    var messages: seq<Message>
    var users: seq<User>
    var typingUsers: seq<string>
    var outbox: seq<ClientEmit>

    /** `useState` initial values; `connected` is what `socket.connected` reads at mount. */
    constructor (connected: bool)
      ensures isConnected == connected && myId == None && lastMessage == None
      ensures messages == [] && users == [] && typingUsers == [] && outbox == []
    {
      isConnected, myId, lastMessage := connected, None, None;
      messages, users, typingUsers, outbox := [], [], [], [];
    }

    /** `connect`: asks to join only when both the username and the room are non-empty. */
    method Connect(username: string, room: string)
      modifies this`outbox
      ensures outbox == old(outbox) + (if username != "" && room != "" then [EmitUserJoin(username, room)] else [])
    {
      if username != "" && room != "" {
        outbox := outbox + [EmitUserJoin(username, room)];
      }
    }

    method SendMessage(message: string, room: string, file: Option<Attachment>)
      modifies this`outbox
      ensures outbox == old(outbox) + [EmitSendMessage(message, room, file)]
    {
      outbox := outbox + [EmitSendMessage(message, room, file)];
    }

    method SendPrivateMessage(to: ConnId, message: string)
      modifies this`outbox
      ensures outbox == old(outbox) + [EmitPrivateMessage(to, message)]
    {
      outbox := outbox + [EmitPrivateMessage(to, message)];
    }

    method SetTyping(isTyping: bool)
      modifies this`outbox
      ensures outbox == old(outbox) + [EmitTyping(isTyping)]
    {
      outbox := outbox + [EmitTyping(isTyping)];
    }

    method MarkMessageRead(messageId: MsgId)
      modifies this`outbox
      ensures outbox == old(outbox) + [EmitMessageRead(messageId)]
    {
      outbox := outbox + [EmitMessageRead(messageId)];
    }

    method SendReaction(messageId: MsgId, reaction: string)
      modifies this`outbox
      ensures outbox == old(outbox) + [EmitReaction(messageId, reaction)]
    {
      outbox := outbox + [EmitReaction(messageId, reaction)];
    }

    /** `connect` event: connected, and the socket's id becomes `myId`. */
    method OnConnect(id: ConnId)
      modifies this`isConnected, this`myId
      ensures isConnected && myId == Some(id)
    {
      isConnected, myId := true, Some(id);
    }

    /** `disconnect` event: only the flag changes; `myId` is kept. */
    method OnDisconnect()
      modifies this`isConnected
      ensures !isConnected
    {
      isConnected := false;
    }

    /** `receive_message`: appended at the end; it also becomes the last message. */
    method OnReceiveMessage(m: Message)
      modifies this`messages, this`lastMessage
      ensures messages == old(messages) + [m]
      ensures |messages| == |old(messages)| + 1 && messages[..|old(messages)|] == old(messages)
      ensures lastMessage == Some(m)
    {
      lastMessage := Some(m);
      messages := messages + [m];
    }

    /** `private_message`: handled exactly as a room message. */
    method OnPrivateMessage(m: Message)
      modifies this`messages, this`lastMessage
      ensures messages == old(messages) + [m]
      ensures |messages| == |old(messages)| + 1 && messages[..|old(messages)|] == old(messages)
      ensures lastMessage == Some(m)
    {
      lastMessage := Some(m);
      messages := messages + [m];
    }

    method OnMessageReadUpdate(messageId: MsgId, userId: ConnId)
      modifies this`messages
      ensures messages == ApplyReadUpdate(old(messages), messageId, userId)
    {
      messages := ApplyReadUpdate(messages, messageId, userId);
    }

    method OnMessageReactionUpdate(messageId: MsgId, reactions: Reactions)
      modifies this`messages
      ensures messages == ApplyReactionUpdate(old(messages), messageId, reactions)
    {
      messages := ApplyReactionUpdate(messages, messageId, reactions);
    }

    /** `user_list`: the list is replaced wholesale. */
    method OnUserList(userList: seq<User>)
      modifies this`users
      ensures users == userList
    {
      users := userList;
    }

    /** `user_joined`: exactly one system notice is appended. */
    method OnUserJoined(username: string, now: MsgId, timestamp: string)
      modifies this`messages
      ensures messages == old(messages) + [PresenceNotice(username, true, now, timestamp)]
    {
      messages := messages + [PresenceNotice(username, true, now, timestamp)];
    }

    /** `user_left`: exactly one system notice is appended. */
    method OnUserLeft(username: string, now: MsgId, timestamp: string)
      modifies this`messages
      ensures messages == old(messages) + [PresenceNotice(username, false, now, timestamp)]
    {
      messages := messages + [PresenceNotice(username, false, now, timestamp)];
    }

    /** `typing_users`: the list is replaced wholesale. */
    method OnTypingUsers(names: seq<string>)
      modifies this`typingUsers
      ensures typingUsers == names
    {
      typingUsers := names;
    }
  }
}
