/**
 * `handleJoinRoom` trims the room for the join and for the room list but keeps the
 * untrimmed text as the current room, which later sends address and the message
 * filter compares with. A room typed with surrounding white space therefore splits
 * the client from the room the server registered it in.
 */
module RoomNameFinding {
  import opened Chat
  import opened JsString
  import opened ChatServer
  import opened ChatApp

  /**
   * With the room state left untrimmed, the joiner is not a member of the room its own
   * sends go to, and no message of the room it actually joined passes its display filter.
   */
  lemma UntrimmedRoomIsolatesJoiner(rooms: Rooms, id: ConnId, typed: string)
    requires Trim(typed) != typed && Trim(typed) != ""
    requires id in rooms && rooms[id] == {id, Trim(typed)}
    requires typed != id
    ensures id !in Recipients(rooms, ToRoom(typed))
    ensures forall m: Message | m.room == Some(Trim(typed)) :: !IsDisplayed(m, typed)
  {
  }

  /** The room typed as "General " with a trailing space: the join goes to "General". */
  lemma TrailingSpaceExample()
    ensures Trim("General ") == "General"
    ensures var rooms := map["s1" := {"s1", "General"}];
      && "s1" !in Recipients(rooms, ToRoom("General "))
      && !IsDisplayed(RoomMessage(map[], "s2", "hi", "General", None, 0, ""), "General ")
  {
    var typed := "General ";
    assert SkipSpace(typed, 0) == 0;
    assert SkipSpaceBack(typed, 0, 8) == SkipSpaceBack(typed, 0, 7) == 7;
    assert typed[0..7] == "General";
    UntrimmedRoomIsolatesJoiner(map["s1" := {"s1", "General"}], "s1", typed);
  }

  /**
   * With the room state committed trimmed (as `ChatView.HandleJoinRoomTrimmed` does), the
   * joiner's own sends come back to it and its room's messages are displayed.
   */
  lemma TrimmedRoomReachesJoiner(rooms: Rooms, id: ConnId, typed: string)
    requires Trim(typed) != ""
    requires id in rooms && rooms[id] == {id, Trim(typed)}
    ensures id in Recipients(rooms, ToRoom(Trim(typed)))
    ensures forall m: Message | m.room == Some(Trim(typed)) :: IsDisplayed(m, Trim(typed))
    ensures Trim(Trim(typed)) == Trim(typed)
  {
    TrimIdempotent(typed);
  }

  /**
   * The as-written client against the server: the socket connects, joins with the trimmed
   * name (what `handleJoinRoom` emits), then sends to the untrimmed room state. Its own
   * message does not come back to it (unless the typed text happens to be its socket id).
   */
  method AsWrittenJoinThenSend(id: ConnId, username: string, typed: string, text: string,
                               now: MsgId, timestamp: string) returns (reached: set<ConnId>)
    requires Trim(typed) != typed && typed != id
    ensures id !in reached
  {
    var server := new Server();
    server.Connect(id);
    server.UserJoin(id, username, Trim(typed));
    server.SendMessage(id, text, typed, None, now, timestamp);
    reached := server.log[|server.log| - 1].recipients;
  }

  /** The corrected client sends to the trimmed room it joined, so its own message comes back. */
  method CorrectedJoinThenSend(id: ConnId, username: string, typed: string, text: string,
                               now: MsgId, timestamp: string) returns (reached: set<ConnId>)
    ensures id in reached
  {
    var server := new Server();
    server.Connect(id);
    server.UserJoin(id, username, Trim(typed));
    server.SendMessage(id, text, Trim(typed), None, now, timestamp);
    reached := server.log[|server.log| - 1].recipients;
  }
}
