/**
 * The decision rules of the chat screen (`App`): the guards of the join and send
 * handlers, the duplicate-free room list, the per-room message filter, when a message
 * is reported as read, the "read by all" marker, the unread counter, the recipient
 * choices and the typing label. Rendering is not modelled.
 */
module ChatApp {
  import opened Chat
  import opened Seqs
  import opened JsString
  import opened ClientSocket

  /** Shown in `room`: the message has no room, has the empty room name (falsy), or names `room`. */
  function IsDisplayed(m: Message, room: string): (shown: bool)
    ensures m.room == Some(room) ==> shown
    ensures m.room == Some("") ==> shown
    ensures m.room.None? ==> shown
    ensures m.room.Some? && m.room.value != "" && m.room.value != room ==> !shown
  {
    m.room.None? || m.room.value == "" || m.room.value == room
  }

  /** The messages shown in `room`, in their order. */
  function VisibleMessages(msgs: seq<Message>, room: string): (r: seq<Message>)
    ensures |r| <= |msgs|
    ensures forall m | m in r :: m in msgs && IsDisplayed(m, room)
    ensures forall m | m in msgs && IsDisplayed(m, room) :: m in r
  {
    if msgs == [] then []
    else (if IsDisplayed(msgs[0], room) then [msgs[0]] else []) + VisibleMessages(msgs[1..], room)
  }

  /** A message appended to the list shows up last on screen exactly when it is displayed. */
  lemma {:induction false} VisibleAppend(msgs: seq<Message>, m: Message, room: string)
    ensures VisibleMessages(msgs + [m], room)
         == VisibleMessages(msgs, room) + (if IsDisplayed(m, room) then [m] else [])
  {
    if msgs != [] {
      assert (msgs + [m])[1..] == msgs[1..] + [m];
      VisibleAppend(msgs[1..], m, room);
    }
  }

  /** Sent by me: both the sender id and my id are present and equal (an absent sender id never equals a missing own id). */
  function SentByMe(m: Message, myId: Option<ConnId>): (mine: bool)
    ensures mine ==> myId.Some? && m.senderId == myId
    ensures myId.None? || m.senderId.None? ==> !mine
    ensures myId.Some? && m.senderId == myId ==> mine
  {
    m.senderId.Some? && myId.Some? && m.senderId.value == myId.value
  }

  /** A read report is due: the message is not mine and my id is not already among its readers. */
  function NeedsMarkRead(m: Message, myId: Option<ConnId>): (due: bool)
    ensures SentByMe(m, myId) ==> !due
    ensures myId.Some? && m.readBy.Some? && myId.value in m.readBy.value ==> !due
    ensures !SentByMe(m, myId) && m.readBy.None? ==> due
    ensures !SentByMe(m, myId) && myId.Some? && m.readBy.Some? && myId.value !in m.readBy.value ==> due
    ensures myId.None? ==> due
  {
    !SentByMe(m, myId) && (m.readBy.None? || myId.None? || myId.value !in m.readBy.value)
  }

  /** The ids `markMessageRead` is called with: displayed messages not mine and not yet read by me. */
  function MarkReadRequests(msgs: seq<Message>, room: string, myId: Option<ConnId>): (r: seq<MsgId>)
    ensures |r| <= |msgs|
    ensures forall k | 0 <= k < |r| ::
      exists m | m in msgs :: m.id == r[k] && IsDisplayed(m, room) && NeedsMarkRead(m, myId)
    ensures forall m | m in msgs && IsDisplayed(m, room) && NeedsMarkRead(m, myId) :: m.id in r
  {
    if msgs == [] then []
    else
      var m := msgs[0];
      assert forall x | x in msgs[1..] :: x in msgs;
      (if IsDisplayed(m, room) && NeedsMarkRead(m, myId) then [m.id] else [])
        + MarkReadRequests(msgs[1..], room, myId)
  }

  /**
   * Once the read update for `me` has come back, no message with that id is requested
   * again; the other messages are requested as before.
   */
  lemma ReadEchoStopsRequests(msgs: seq<Message>, messageId: MsgId, me: ConnId)
    ensures var after := ApplyReadUpdate(msgs, messageId, me);
      forall i | 0 <= i < |after| && after[i].id == messageId :: !NeedsMarkRead(after[i], Some(me))
    ensures var after := ApplyReadUpdate(msgs, messageId, me);
      forall i | 0 <= i < |after| && after[i].id != messageId ::
        NeedsMarkRead(after[i], Some(me)) == NeedsMarkRead(msgs[i], Some(me))
  {
  }

  /** The "read by all" marker: my own message with a readers list at least as long as the online users minus one. */
  function ReadByAll(m: Message, userCount: nat, myId: Option<ConnId>): (marked: bool)
    ensures marked ==> SentByMe(m, myId) && m.readBy.Some?
    ensures marked && 0 < userCount ==> userCount - 1 <= |m.readBy.value|
    ensures SentByMe(m, myId) && m.readBy.Some? && userCount <= 1 ==> marked
    ensures m.readBy.Some? && |m.readBy.value| < userCount - 1 ==> !marked
    ensures SentByMe(m, myId) && m.readBy.Some? && |m.readBy.value| >= userCount - 1 ==> marked
  {
    m.readBy.Some? && |m.readBy.value| >= userCount - 1 && SentByMe(m, myId)
  }

  /** A message showing the "read by all" marker is my own, so it is never reported as read by me. */
  lemma ReadByAllIsOwn(m: Message, userCount: nat, myId: Option<ConnId>)
    requires ReadByAll(m, userCount, myId)
    ensures !NeedsMarkRead(m, myId) && myId.Some? && m.senderId == myId
  {
  }

  /**
   * A further read receipt never takes the "read by all" marker away from a message
   * whose readers are duplicate-free (as every list built by the read update is).
   */
  lemma {:induction false} ReadByAllStable(msgs: seq<Message>, messageId: MsgId, userId: ConnId,
                                           i: nat, userCount: nat, myId: Option<ConnId>)
    requires i < |msgs| && ReadByAll(msgs[i], userCount, myId) && NoDup(msgs[i].readBy.value)
    ensures ReadByAll(ApplyReadUpdate(msgs, messageId, userId)[i], userCount, myId)
  {
    var after := ApplyReadUpdate(msgs, messageId, userId);
    if msgs[i].id == messageId {
      assert after[i].readBy.value == AddReader(msgs[i].readBy, userId);
    }
  }

  /** The users offered as private recipients: everyone whose username differs from mine. */
  function RecipientChoices(users: seq<User>, username: string): (r: seq<User>)
    ensures |r| <= |users|
    ensures forall u | u in r :: u in users && u.username != username
    ensures forall u | u in users && u.username != username :: u in r
  {
    if users == [] then []
    else (if users[0].username != username then [users[0]] else []) + RecipientChoices(users[1..], username)
  }

  /** `parts.join(sep)`. */
  function Join(parts: seq<string>, sep: string): (r: string)
    ensures parts == [] ==> r == ""
    ensures |parts| == 1 ==> r == parts[0]
  {
    if parts == [] then ""
    else if |parts| == 1 then parts[0]
    else parts[0] + sep + Join(parts[1..], sep)
  }

  /** Joining one more part puts exactly one separator between the earlier text and it. */
  lemma {:induction false} JoinSnoc(parts: seq<string>, p: string, sep: string)
    requires parts != []
    ensures Join(parts + [p], sep) == Join(parts, sep) + sep + p
  {
    if |parts| == 1 {
      assert parts + [p] == [parts[0], p];
      assert (parts + [p])[1..] == [p];
    } else {
      assert (parts + [p])[1..] == parts[1..] + [p];
      JoinSnoc(parts[1..], p, sep);
    }
  }

  /** The label for several typists lists them all, separated by ", ", before " are typing...". */
  lemma TypingLabelSnoc(typing: seq<string>, p: string)
    requires typing != []
    ensures TypingLabel(typing + [p]) == Some(Join(typing, ", ") + ", " + p + " are typing...")
  {
    JoinSnoc(typing, p, ", ");
  }

  predicate EndsWith(s: string, suffix: string) {
    |suffix| <= |s| && s[|s| - |suffix|..] == suffix
  }

  /** The typing line: absent when nobody types, "is" for exactly one typist, "are" otherwise. */
  function TypingLabel(typing: seq<string>): (r: Option<string>)
    ensures r.Some? <==> |typing| > 0
    ensures |typing| == 1 ==> r == Some(typing[0] + " is typing...")
    ensures |typing| > 1 ==> r.Some? && EndsWith(r.value, " are typing...")
  {
    if |typing| == 0 then None
    else Some(Join(typing, ", ") + (if |typing| == 1 then " is typing..." else " are typing..."))
  }

  /** The room list with `r` appended unless it is already there, so the list stays duplicate-free. */
  function AddRoom(rooms: seq<string>, r: string): (rs: seq<string>)
    ensures r in rs
    ensures forall x | x in rs :: x in rooms || x == r
    ensures |rooms| <= |rs| <= |rooms| + 1 && rs[..|rooms|] == rooms
    ensures r in rooms ==> rs == rooms
    ensures NoDup(rooms) ==> NoDup(rs)
  {
    if r in rooms then rooms else rooms + [r]
  }

  /**
   * The unread counter after the messages effect ran with the window focus flags
   * `history`: the number of runs since the last one that saw the window focused.
   */
  function UnreadCount(history: seq<bool>): (n: nat)
    ensures n <= |history|
    ensures forall k | |history| - n <= k < |history| :: !history[k]
    ensures n < |history| ==> history[|history| - n - 1]
  {
    if history == [] || history[|history| - 1] then 0
    else 1 + UnreadCount(history[..|history| - 1])
  }

  /** The effect's step: focused resets the counter, unfocused adds one. */
  lemma UnreadStep(history: seq<bool>, focused: bool)
    ensures UnreadCount(history + [focused]) == if focused then 0 else UnreadCount(history) + 1
  {
    assert (history + [focused])[..|history|] == history;
  }

  /** The component state of `App` and the socket hook it drives. */
  class ChatView {
    const socket: SocketHook
    var username: string
    var inputUsername: string
    var draft: string          // the `message` input
    var isTyping: bool
    var recipient: string
    var room: string
    var availableRooms: seq<string>
    var unread: nat
    var windowFocused: bool
    ghost var focusHistory: seq<bool>   // window focus at each run of the messages effect

    ghost predicate Valid()
      reads this
    {
      NoDup(availableRooms) && "General" in availableRooms && unread == UnreadCount(focusHistory)
    }

    constructor (socket: SocketHook)
      ensures Valid() && this.socket == socket
      ensures username == "" && inputUsername == "" && draft == "" && !isTyping && recipient == ""
      ensures room == "General" && availableRooms == ["General"]
      ensures unread == 0 && windowFocused && focusHistory == []
    {
      this.socket := socket;
      username, inputUsername, draft, isTyping, recipient := "", "", "", false, "";
      room, availableRooms := "General", ["General"];
      unread, windowFocused, focusHistory := 0, true, [];
    }

    method EditUsername(value: string)
      modifies this`inputUsername
      ensures inputUsername == value
    {
      inputUsername := value;
    }

    method EditRoom(value: string)
      modifies this`room
      ensures room == value
    {
      room := value;
    }

    method SelectRecipient(value: string)
      modifies this`recipient
      ensures recipient == value
    {
      recipient := value;
    }

    /** Typing in the message box: the draft changes and `isTyping` says whether it is non-empty. */
    method EditDraft(value: string)
      modifies this`draft, this`isTyping
      ensures draft == value && isTyping == (|value| > 0)
    {
      draft, isTyping := value, |value| > 0;
    }

    /**
     * `handleJoinRoom`: acts only when the trimmed username and the trimmed room are both
     * non-empty; then the trimmed name becomes the username, the join is emitted with the
     * trimmed values and the trimmed room is added to the list if absent. The `room`
     * field itself is left as typed.
     */
    method HandleJoinRoom()
      requires Valid()
      modifies this`username, this`availableRooms, socket`outbox
      ensures Valid()
      ensures var name, r := Trim(old(inputUsername)), Trim(room);
        if name != "" && r != "" then
          && username == name
          && availableRooms == AddRoom(old(availableRooms), r)
          && socket.outbox == old(socket.outbox) + [EmitUserJoin(name, r)]
        else
          && username == old(username)
          && availableRooms == old(availableRooms)
          && socket.outbox == old(socket.outbox)
    {
      var name, r := Trim(inputUsername), Trim(room);
      if name != "" && r != "" {
        username := name;
        socket.Connect(name, r);
        availableRooms := AddRoom(availableRooms, r);
      }
    }

    /**
     * `handleJoinRoom` as evidently intended: the same, and the room state becomes the
     * trimmed room, so that the room later sends address and the display filter compares
     * with is the room the server registered.
     */
    method HandleJoinRoomTrimmed()
      requires Valid()
      modifies this`username, this`availableRooms, this`room, socket`outbox
      ensures Valid()
      ensures var name, r := Trim(old(inputUsername)), Trim(old(room));
        if name != "" && r != "" then
          && username == name && room == r
          && availableRooms == AddRoom(old(availableRooms), r)
          && socket.outbox == old(socket.outbox) + [EmitUserJoin(username, room)]
        else
          && username == old(username) && room == old(room)
          && availableRooms == old(availableRooms)
          && socket.outbox == old(socket.outbox)
    {
      var name, r := Trim(inputUsername), Trim(room);
      if name != "" && r != "" {
        username := name;
        socket.Connect(name, r);
        availableRooms := AddRoom(availableRooms, r);
        room := r;
      }
    }

    /**
     * `handleSendMessage`: only a draft that is not blank is sent, trimmed, to the current
     * room; then the draft is cleared and typing is reset locally and on the server.
     */
    method HandleSendMessage()
      modifies this`draft, this`isTyping, socket`outbox
      ensures var text := Trim(old(draft));
        if text != "" then
          && draft == "" && !isTyping
          && socket.outbox == old(socket.outbox) + [EmitSendMessage(text, room, None), EmitTyping(false)]
        else
          && draft == old(draft) && isTyping == old(isTyping)
          && socket.outbox == old(socket.outbox)
    {
      var text := Trim(draft);
      if text != "" {
        socket.SendMessage(text, room, None);
        draft, isTyping := "", false;
        socket.SetTyping(false);
      }
    }

    /** `handleSendPrivateMessage`: as above, and only with a recipient chosen. */
    method HandleSendPrivateMessage()
      modifies this`draft, this`isTyping, socket`outbox
      ensures var text := Trim(old(draft));
        if text != "" && recipient != "" then
          && draft == "" && !isTyping
          && socket.outbox == old(socket.outbox) + [EmitPrivateMessage(recipient, text), EmitTyping(false)]
        else
          && draft == old(draft) && isTyping == old(isTyping)
          && socket.outbox == old(socket.outbox)
    {
      var text := Trim(draft);
      if text != "" && recipient != "" {
        socket.SendPrivateMessage(recipient, text);
        draft, isTyping := "", false;
        socket.SetTyping(false);
      }
    }

    /** The window focus as the focus and blur listeners set it. */
    method SetWindowFocused(focused: bool)
      modifies this`windowFocused
      ensures windowFocused == focused
    {
      windowFocused := focused;
    }

    /** One run of the effect on `[messages, myId]`: count while unfocused, reset while focused. */
    method OnMessagesChanged()
      requires Valid()
      modifies this`unread, this`focusHistory
      ensures Valid()
      ensures unread == if windowFocused then 0 else old(unread) + 1
      ensures focusHistory == old(focusHistory) + [windowFocused]
    {
      UnreadStep(focusHistory, windowFocused);
      if !windowFocused {
        unread := unread + 1;
      } else {
        unread := 0;
      }
      focusHistory := focusHistory + [windowFocused];
    }
  }
}
