/** The signalling server's handlers as they run: each connection's `join-room`, `disconnect` and
    `chat-message` handler updates the room table, the socket table, `roomChats` and the outbox in
    place, with the scans written as the loops they are, and is proved to do what the
    corresponding function of `Presence` describes. */
module Server {
  import opened Protocol
  import opened Presence

  class SignalingServer {
    /** The transport's rooms: each room's connection ids, in join order. */
    var rooms: map<RoomId, seq<ConnId>>
    /** The joined sockets, with the properties `join-room` stored on them. */
    var sockets: map<ConnId, Socket>
    /** `roomChats`: each room's chat log. */
    var chats: map<RoomId, seq<ChatMessage>>
    /** Every event emitted so far, in order. */
    var outbox: seq<Emit>

    ghost function Model(): Directory
      reads this
    {
      Directory(rooms, sockets, chats, outbox)
    }

    /** The state is consistent and the presence broadcasts are balanced. */
    ghost predicate Valid()
      reads this
    {
      Presence.Valid(Model()) && Balanced(Model())
    }

    constructor ()
      ensures Valid() && Model() == Initial
    {
      rooms, sockets, chats, outbox := map[], map[], map[], [];
    }

    /** The `join-room` handler of connection `cid`. */
    method JoinRoom(cid: ConnId, roomId: RoomId, userId: UserId, userName: string)
      requires Valid() && cid !in sockets
      modifies this
      ensures Valid()
      ensures Model() == Join(old(Model()), cid, roomId, userId, userName)
    {
      ghost var d := Model();
      // the transport puts the socket into the room, then the handler stores its properties
      var room := (if roomId in rooms then rooms[roomId] else []) + [cid];
      var name := DisplayName(userId, userName);
      var joined := sockets[cid := Socket(userId, name, roomId)];

      var users, isDuplicate := ScanRoom(room, joined, cid, userId);

      var emitted := outbox + [Emit(roomId, [cid], RoomUsers(users, name))];
      var chatHistory := if roomId in chats then chats[roomId] else [];
      emitted := emitted + [Emit(roomId, [cid], ChatHistory(chatHistory))];
      if !isDuplicate {
        emitted := emitted + [Emit(roomId, Without(room, cid), UserConnected(userId, name))];
      }
      ghost var d' := Join(d, cid, roomId, userId, userName);
      assert d'.rooms == rooms[roomId := room] && d'.sockets == joined && d'.chats == chats;
      assert d'.outbox == emitted;
      assert Presence.Valid(d') && Balanced(d') by {
        JoinKeepsValid(d, cid, roomId, userId, userName);
        JoinKeepsBalanced(d, cid, roomId, userId, userName);
      }
      rooms, sockets, outbox := rooms[roomId := room], joined, emitted;
      assert Model() == d';
    }

    /** The `disconnect` handler of connection `cid` (none is registered for a connection that
        never joined). The transport first takes the socket out of its room and its socket table. */
    method Disconnect(cid: ConnId)
      requires Valid()
      modifies this
      ensures Valid()
      ensures Model() == Presence.Disconnect(old(Model()), cid)
    {
      ghost var d := Model();
      if cid !in sockets {
        return;
      }
      var socket := sockets[cid];
      var roomId, userId := socket.roomId, socket.userId;
      var rest := Without(if roomId in rooms then rooms[roomId] else [], cid);
      sockets := sockets - {cid};
      rooms := if rest == [] then rooms - {roomId} else rooms[roomId := rest];

      var currentRoom := if roomId in rooms then rooms[roomId] else [];
      assert currentRoom == rest;
      var hasOtherConnection := HasOtherConnection(currentRoom, sockets, userId);

      if !hasOtherConnection {
        outbox := outbox + [Emit(roomId, Without(currentRoom, cid), UserDisconnected(userId))];
      }
      DisconnectKeepsValid(d, cid);
      DisconnectKeepsBalanced(d, cid);
    }

    /** The `chat-message` handler of connection `cid` (none is registered for a connection that
        never joined); `timestamp` is the clock reading the handler takes. */
    method ChatMessageReceived(cid: ConnId, message: string, timestamp: string)
      requires Valid()
      modifies this
      ensures Valid()
      ensures Model() == Post(old(Model()), cid, message, timestamp)
    {
      ghost var d := Model();
      if cid !in sockets {
        return;
      }
      var socket := sockets[cid];
      var roomId := socket.roomId;
      var messageData := ChatMessage(socket.userId, socket.userName, message, timestamp);
      var roomMessages := if roomId in chats then chats[roomId] else [];
      roomMessages := roomMessages + [messageData];
      if |roomMessages| > MaxMessages {
        roomMessages := roomMessages[1..];
      }
      var room := if roomId in rooms then rooms[roomId] else [];
      PostKeepsInvariants(d, cid, message, timestamp);
      assert Directory(rooms, sockets, chats[roomId := roomMessages], outbox + [Emit(roomId, Without(room, cid), Chat(messageData))])
        == Post(d, cid, message, timestamp);
      chats := chats[roomId := roomMessages];
      outbox := outbox + [Emit(roomId, Without(room, cid), Chat(messageData))];
    }
  }

  /** The scan of `join-room` over the room `room` as the joiner `cid` sees it: the other users'
      entries in room order, and whether one of them carries `userId`. */
  method ScanRoom(room: seq<ConnId>, joined: map<ConnId, Socket>, cid: ConnId, userId: UserId)
    returns (users: seq<UserEntry>, isDuplicate: bool)
    ensures users == UserList(room, joined, cid)
    ensures isDuplicate == IsDuplicate(room, joined, cid, userId)
  {
    users, isDuplicate := [], false;
    var i := 0;
    while i < |room|
      invariant 0 <= i <= |room|
      invariant users == UserList(room[..i], joined, cid)
      invariant isDuplicate == IsDuplicate(room[..i], joined, cid, userId)
    {
      var socketId := room[i];
      assert room[..i + 1][..i] == room[..i];
      if socketId != cid && socketId in joined && joined[socketId].userId != "" {
        var userSocket := joined[socketId];
        users := users + [UserEntry(userSocket.userId, userSocket.userName)];
        if userSocket.userId == userId {
          isDuplicate := true;
        }
      }
      i := i + 1;
    }
    assert room[..|room|] == room;
  }

  /** The scan of `disconnect` over what is left of the room: whether a socket still carries `userId`. */
  method HasOtherConnection(currentRoom: seq<ConnId>, sockets: map<ConnId, Socket>, userId: UserId)
    returns (hasOtherConnection: bool)
    ensures hasOtherConnection == Carries(currentRoom, sockets, userId)
  {
    hasOtherConnection := false;
    var i := 0;
    while i < |currentRoom|
      invariant 0 <= i <= |currentRoom|
      invariant hasOtherConnection == Carries(currentRoom[..i], sockets, userId)
    {
      var socketId := currentRoom[i];
      assert currentRoom[..i + 1][..i] == currentRoom[..i];
      if socketId in sockets && sockets[socketId].userId == userId {
        hasOtherConnection := true;
      }
      i := i + 1;
    }
    assert currentRoom[..|currentRoom|] == currentRoom;
  }
}
