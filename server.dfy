/**
 * The socket.io server: a registry `users` from connection id to {username, id, room},
 * the rooms each live socket has joined, and the handlers for `user_join`,
 * `send_message`, `private_message`, `message_reaction` and `disconnect`.
 * Every handler is one atomic step; what it emits is appended to `log` together with
 * the audience it was addressed to and the sockets that audience reached at that moment.
 */
module ChatServer {
  import opened Chat
  import opened Seqs

  /** For every live socket, the rooms it is in (socket.io puts each socket in a room named by its id). */
  type Rooms = map<ConnId, set<string>>

  datatype Audience =
    | ToRoom(room: string)                      // io.to(room).emit
    | ToRoomExcept(room: string, except: ConnId) // socket.to(room).emit: the room minus the room named by the emitter's id
    | ToSocket(socket: ConnId)                  // socket.emit

  datatype ServerEvent =
    | UserListEvent(users: seq<User>)
    | UserJoinedEvent(username: string, id: ConnId)
    | UserLeftEvent(username: string, id: ConnId)
    | ReceiveMessageEvent(message: Message)
    | PrivateMessageEvent(message: Message)

  datatype Delivery = Delivery(audience: Audience, event: ServerEvent, recipients: set<ConnId>)

  /** The live sockets in `room`. */
  function Members(rooms: Rooms, room: string): set<ConnId> {
    set c | c in rooms && room in rooms[c]
  }

  /**
   * The sockets an emit to `audience` reaches: only live ones. A broadcast from a socket
   * excludes the whole room named by the emitter's id (socket.io keeps the exclusion as a
   * set of rooms), which holds the emitter itself and anyone who joined a room of that name.
   */
  function Recipients(rooms: Rooms, audience: Audience): (r: set<ConnId>)
    ensures r <= rooms.Keys
    ensures audience.ToRoom? ==> forall c | c in rooms :: c in r <==> audience.room in rooms[c]
    ensures audience.ToRoomExcept? ==> audience.except !in r
    ensures audience.ToRoomExcept? ==> forall c | c in rooms ::
      c in r <==> audience.room in rooms[c] && audience.except !in rooms[c] && c != audience.except
    ensures audience.ToSocket? ==> r == (if audience.socket in rooms then {audience.socket} else {})
  {
    match audience
    case ToRoom(room) => Members(rooms, room)
    // The emitter is always in the room named by its id; removing it by name as well only
    // matters for a socket that is no longer live.
    case ToRoomExcept(room, except) => Members(rooms, room) - Members(rooms, except) - {except}
    case ToSocket(c) => if c in rooms then {c} else {}
  }

  /**
   * The registry's values whose room is `room`, in the insertion order `order` of the
   * registry's keys (the order in which JavaScript lists an object's values).
   */
  function RoomList(users: map<ConnId, User>, order: seq<ConnId>, room: string): (r: seq<User>)
    requires forall id | id in order :: id in users
    ensures |r| <= |order|
    ensures forall k | 0 <= k < |r| :: r[k].room == room
    ensures forall id | id in order && users[id].room == room :: users[id] in r
    ensures forall u | u in r :: exists id | id in order :: users[id] == u
  {
    if order == [] then []
    else
      var u := users[order[0]];
      (if u.room == room then [u] else []) + RoomList(users, order[1..], room)
  }

  /** The ids of the sessions registered in `room`. */
  function RoomSessions(users: map<ConnId, User>, room: string): set<ConnId> {
    set id | id in users && users[id].room == room
  }

  /** The invariant of the server's state. */
  ghost predicate Consistent(users: map<ConnId, User>, order: seq<ConnId>, rooms: Rooms) {
    && NoDup(order)
    && (forall id | id in order :: id in users)
    && (forall id | id in users :: id in order)
    && (forall id | id in users :: users[id].id == id && id in rooms && users[id].room in rooms[id])
    && (forall c | c in rooms :: c in rooms[c])
  }

  /**
   * Presence: a `user_list` for `room` has exactly as many entries as there are
   * sessions registered in `room`, so no session is listed twice.
   */
  lemma {:induction false} RoomListCount(users: map<ConnId, User>, order: seq<ConnId>, room: string)
    requires NoDup(order)
    requires forall id | id in order :: id in users
    ensures |RoomList(users, order, room)| == |set id | id in order && users[id].room == room|
  {
    if order != [] {
      var h, t := order[0], order[1..];
      NoDupTail(order);
      RoomListCount(users, t, room);
      assert |RoomList(users, order, room)|
          == (if users[h].room == room then 1 else 0) + |RoomList(users, t, room)|;
      RoomKeysStep(users, order, room);
    }
  }

  /** The keys in `room` along `order` are those along its tail plus the head when it is in `room`. */
  lemma RoomKeysStep(users: map<ConnId, User>, order: seq<ConnId>, room: string)
    requires order != [] && order[0] !in order[1..]
    requires forall id | id in order :: id in users
    ensures |set id | id in order && users[id].room == room|
         == (if users[order[0]].room == room then 1 else 0)
          + |set id | id in order[1..] && users[id].room == room|
  {
    var h := order[0];
    var rest := set id | id in order[1..] && users[id].room == room;
    var whole := set id | id in order && users[id].room == room;
    if users[h].room == room {
      assert whole == {h} + rest;
    } else {
      assert whole == rest;
    }
  }

  /** In a consistent state the `user_list` of a room has one entry per session in that room. */
  lemma PresenceCount(users: map<ConnId, User>, order: seq<ConnId>, rooms: Rooms, room: string)
    requires Consistent(users, order, rooms)
    ensures |RoomList(users, order, room)| == |RoomSessions(users, room)|
  {
    RoomListCount(users, order, room);
    assert (set id | id in order && users[id].room == room) == RoomSessions(users, room);
  }

  /** A `user_list` for `room` lists exactly the registered users whose room is `room`. */
  lemma RoomListExact(users: map<ConnId, User>, order: seq<ConnId>, rooms: Rooms, room: string, u: User)
    requires Consistent(users, order, rooms)
    ensures u in RoomList(users, order, room) <==> u.id in users && users[u.id] == u && u.room == room
  {
    if u in RoomList(users, order, room) {
      var id :| id in order && users[id] == u;
    }
  }

  /** Every session registered in `room` is a live member of it, so a room emit reaches it. */
  lemma RoomEmitReachesSessions(users: map<ConnId, User>, order: seq<ConnId>, rooms: Rooms, room: string)
    requires Consistent(users, order, rooms)
    ensures RoomSessions(users, room) <= Recipients(rooms, ToRoom(room))
  {
  }

  /**
   * A private message reaches its addressee and the sender's echo, and nobody else,
   * unless some other socket has joined a room literally named after the addressee's id
   * or after the sender's id.
   */
  lemma PrivateReachesOnlyPair(rooms: Rooms, sender: ConnId, to: ConnId)
    requires forall c | c in rooms :: c in rooms[c]
    requires sender in rooms
    requires forall c | c in rooms && c != to :: to !in rooms[c]
    requires forall c | c in rooms && c != sender :: sender !in rooms[c]
    ensures Recipients(rooms, ToRoomExcept(to, sender)) + Recipients(rooms, ToSocket(sender))
         == (if to in rooms then {to} else {}) + {sender}
  {
  }

  /** The display name of the sender: the registered username, or "Anonymous" when there is none. */
  function SenderName(users: map<ConnId, User>, id: ConnId): (name: string)
    ensures name != ""
    ensures name == "Anonymous" || (id in users && name == users[id].username)
    ensures id in users && users[id].username != "" ==> name == users[id].username
  {
    if id in users && users[id].username != "" then users[id].username else "Anonymous"
  }

  /** The payload of `receive_message`; `now` and `timestamp` stand for the clock readings. */
  function RoomMessage(users: map<ConnId, User>, id: ConnId, text: string, room: string,
                       file: Option<Attachment>, now: MsgId, timestamp: string): (m: Message)
    ensures m.sender == Some(SenderName(users, id)) && m.senderId == Some(id)
    ensures m.room == Some(room) && m.text == text && m.id == now && m.timestamp == timestamp
    ensures m.file.Some? <==> file.Some?
    ensures m.file == file
    ensures !m.isPrivate && !m.system && m.readBy.None? && m.reactions.None?
  {
    Message(now, Some(SenderName(users, id)), Some(id), text, Some(room), timestamp,
            file, false, false, None, None)
  }

  /** The payload of `private_message`: private, in the sender's registered room if any. */
  function PrivateMessageData(users: map<ConnId, User>, id: ConnId, text: string,
                              now: MsgId, timestamp: string): (m: Message)
    ensures m.sender == Some(SenderName(users, id)) && m.senderId == Some(id)
    ensures m.room == (if id in users then Some(users[id].room) else None)
    ensures m.text == text && m.id == now && m.timestamp == timestamp
    ensures m.isPrivate && !m.system && m.file.None? && m.readBy.None? && m.reactions.None?
  {
    var room := if id in users then Some(users[id].room) else None;
    Message(now, Some(SenderName(users, id)), Some(id), text, room, timestamp,
            None, true, false, None, None)
  }

  /** A join keeps the state consistent and lists the joiner in its room. */
  lemma JoinPreserves(users: map<ConnId, User>, order: seq<ConnId>, rooms: Rooms,
                      id: ConnId, username: string, room: string)
    requires Consistent(users, order, rooms) && id in rooms
    ensures var users' := users[id := User(username, id, room)];
      var order' := if id in users then order else order + [id];
      var rooms' := rooms[id := rooms[id] + {room}];
      && Consistent(users', order', rooms')
      && |users'| == (if id in users then |users| else |users| + 1)
      && User(username, id, room) in RoomList(users', order', room)
  {
    var users' := users[id := User(username, id, room)];
    var order' := if id in users then order else order + [id];
    assert NoDup(order') by {
      if id !in users {
        assert id !in order;
      }
    }
    assert forall x | x in order' :: x in users';
    assert users'[id].room == room && id in order';
  }

  class Server {
    var users: map<ConnId, User>
    var order: seq<ConnId>   // the keys of `users` in insertion order
    var rooms: Rooms
    var log: seq<Delivery>

    ghost predicate Valid()
      reads this
    {
      Consistent(users, order, rooms)
    }

    constructor ()
      ensures Valid()
      ensures users == map[] && order == [] && rooms == map[] && log == []
    {
      users, order, rooms, log := map[], [], map[], [];
    }

    /** A new connection: socket.io places the socket in the room named by its id. */
    method Connect(id: ConnId)
      requires Valid() && id !in rooms
      modifies this`rooms
      ensures Valid()
      ensures rooms == old(rooms)[id := {id}]
    {
      rooms := rooms[id := {id}];
    }

    /** `user_join`: register (or overwrite) the entry, join the room, announce. */
    method UserJoin(id: ConnId, username: string, room: string)
      requires Valid() && id in rooms
      modifies this`users, this`order, this`rooms, this`log
      ensures Valid()
      ensures users == old(users)[id := User(username, id, room)]
      ensures order == if id in old(users) then old(order) else old(order) + [id]
      ensures |users| == if id in old(users) then |old(users)| else |old(users)| + 1
      ensures rooms == old(rooms)[id := old(rooms)[id] + {room}]
      ensures log == old(log) + [
        Delivery(ToRoom(room), UserListEvent(RoomList(users, order, room)), Members(rooms, room)),
        Delivery(ToRoom(room), UserJoinedEvent(username, id), Members(rooms, room))]
      ensures User(username, id, room) in RoomList(users, order, room)
      ensures id in Members(rooms, room)
    {
      JoinPreserves(users, order, rooms, id, username, room);
      if id !in users {
        order := order + [id];
      }
      users := users[id := User(username, id, room)];
      rooms := rooms[id := rooms[id] + {room}];
      var list := RoomList(users, order, room);
      var reached := Recipients(rooms, ToRoom(room));
      log := log + [Delivery(ToRoom(room), UserListEvent(list), reached),
                    Delivery(ToRoom(room), UserJoinedEvent(username, id), reached)];
    }

    /** `send_message`: relay to the room named in the payload; the registry is untouched. */
    method SendMessage(id: ConnId, text: string, room: string, file: Option<Attachment>,
                       now: MsgId, timestamp: string)
      requires Valid() && id in rooms
      modifies this`log
      ensures log == old(log) + [Delivery(ToRoom(room),
        ReceiveMessageEvent(RoomMessage(users, id, text, room, file, now, timestamp)),
        Members(rooms, room))]
    {
      var m := RoomMessage(users, id, text, room, file, now, timestamp);
      log := log + [Delivery(ToRoom(room), ReceiveMessageEvent(m), Recipients(rooms, ToRoom(room)))];
    }

    /** `private_message`: to the addressee's socket (not the sender), then echoed to the sender. */
    method PrivateMessage(id: ConnId, to: ConnId, text: string, now: MsgId, timestamp: string)
      requires Valid() && id in rooms
      modifies this`log
      ensures var m := PrivateMessageData(users, id, text, now, timestamp);
        log == old(log) + [
          Delivery(ToRoomExcept(to, id), PrivateMessageEvent(m), Members(rooms, to) - Members(rooms, id)),
          Delivery(ToSocket(id), PrivateMessageEvent(m), {id})]
    {
      var m := PrivateMessageData(users, id, text, now, timestamp);
      assert Recipients(rooms, ToRoomExcept(to, id)) == Members(rooms, to) - Members(rooms, id) by {
        assert id in Members(rooms, id);
      }
      log := log + [Delivery(ToRoomExcept(to, id), PrivateMessageEvent(m), Recipients(rooms, ToRoomExcept(to, id)))];
      log := log + [Delivery(ToSocket(id), PrivateMessageEvent(m), Recipients(rooms, ToSocket(id)))];
    }

    /** `message_reaction`: only logged to the console; nothing changes and nothing is emitted. */
    method MessageReaction(id: ConnId, messageId: MsgId, reaction: string)
      requires Valid() && id in rooms
      ensures users == old(users) && order == old(order) && rooms == old(rooms) && log == old(log)
    {
    }

    /**
     * `disconnect`. socket.io has already taken the socket out of all its rooms when the
     * handler runs. A registered session is announced as left, removed, and the room's
     * refreshed list is sent; an unregistered one changes nothing else and emits nothing.
     */
    method Disconnect(id: ConnId)
      requires Valid() && id in rooms
      modifies this`users, this`order, this`rooms, this`log
      ensures Valid()
      ensures rooms == old(rooms) - {id}
      ensures users == old(users) - {id}
      ensures order == Without(old(order), id)
      ensures id !in old(users) ==> log == old(log)
      ensures id in old(users) ==>
        var u := old(users)[id];
        && log == old(log) + [
          Delivery(ToRoom(u.room), UserLeftEvent(u.username, id), Members(rooms, u.room)),
          Delivery(ToRoom(u.room), UserListEvent(RoomList(users, order, u.room)), Members(rooms, u.room))]
        && (forall v | v in RoomList(users, order, u.room) :: v.id != id)
    {
      rooms := rooms - {id};
      if id in users {
        var u := users[id];
        log := log + [Delivery(ToRoom(u.room), UserLeftEvent(u.username, id), Recipients(rooms, ToRoom(u.room)))];
        users := users - {id};
        order := Without(order, id);
        var list := RoomList(users, order, u.room);
        log := log + [Delivery(ToRoom(u.room), UserListEvent(list), Recipients(rooms, ToRoom(u.room)))];
      }
    }
  }
}
