/** The server's room presence and chat log: what the `join-room` handler and the `disconnect`
    and `chat-message` handlers it registers do to the server's state, as functions on that
    state, with the invariants they keep. */
module Presence {
  import opened Protocol

  /** `MAX_MESSAGES`: the most chat messages a room's log keeps. */
  const MaxMessages: nat := 100

  /** What `join-room` stores on a socket: `socket.userId`, `socket.userName`, `socket.roomId`. */
  datatype Socket = Socket(userId: UserId, userName: string, roomId: RoomId)

  /** One emitted event: the room it concerns, the connections it is sent to, its payload. */
  datatype Emit = Emit(room: RoomId, to: seq<ConnId>, event: Event)

  /** The server's state: the transport's rooms (each a sequence of connection ids in join order),
      the joined sockets with their stored properties, `roomChats`, and every event emitted so far. */
  datatype Directory = Directory(
    rooms: map<RoomId, seq<ConnId>>,
    sockets: map<ConnId, Socket>,
    chats: map<RoomId, seq<ChatMessage>>,
    outbox: seq<Emit>)

  /** The state at process start: no rooms, no sockets, no chat, nothing emitted. */
  const Initial: Directory := Directory(map[], map[], map[], [])

  /** The connections in room `r` (a room the transport does not know has none). */
  function Members(d: Directory, r: RoomId): seq<ConnId>
  {
    if r in d.rooms then d.rooms[r] else []
  }

  /** `roomChats.get(r) || []`. */
  function History(d: Directory, r: RoomId): seq<ChatMessage>
  {
    if r in d.chats then d.chats[r] else []
  }

  /** The name stored for a joining socket: the supplied name unless it is empty, else the
      first (up to) eight characters of the identifier. */
  function DisplayName(userId: UserId, userName: string): (r: string)
    ensures userName != "" ==> r == userName
    ensures userName == "" ==> |r| == (if |userId| < 8 then |userId| else 8) && r == userId[..|r|]
  {
    if userName != "" then userName else userId[..if |userId| < 8 then |userId| else 8]
  }

  /** The join scan lists connection `id` for a joiner on `self`: another socket with a non-empty `userId`. */
  predicate Listed(id: ConnId, sockets: map<ConnId, Socket>, self: ConnId)
  {
    id != self && id in sockets && sockets[id].userId != ""
  }

  /** The `users` array built by the join scan over `ids`: one `{id, name}` per listed connection, in order. */
  function UserList(ids: seq<ConnId>, sockets: map<ConnId, Socket>, self: ConnId): seq<UserEntry>
  {
    if ids == [] then []
    else
      var id := ids[|ids| - 1];
      if Listed(id, sockets, self) then UserList(ids[..|ids| - 1], sockets, self) + [UserEntry(sockets[id].userId, sockets[id].userName)]
      else UserList(ids[..|ids| - 1], sockets, self)
  }

  /** The `isDuplicate` flag of the join scan over `ids`: some listed connection carries `u`. */
  function IsDuplicate(ids: seq<ConnId>, sockets: map<ConnId, Socket>, self: ConnId, u: UserId): bool
  {
    if ids == [] then false
    else
      var id := ids[|ids| - 1];
      IsDuplicate(ids[..|ids| - 1], sockets, self, u) || (Listed(id, sockets, self) && sockets[id].userId == u)
  }

  /** The `hasOtherConnection` flag of the disconnect scan over `ids`: some socket there carries `u`.
      Unlike the join scan, it does not skip sockets whose `userId` is empty. */
  function Carries(ids: seq<ConnId>, sockets: map<ConnId, Socket>, u: UserId): bool
  {
    if ids == [] then false
    else
      var id := ids[|ids| - 1];
      Carries(ids[..|ids| - 1], sockets, u) || (id in sockets && sockets[id].userId == u)
  }

  /** The `room-users` list holds exactly one entry for each listed connection and nothing else. */
  lemma {:induction false} UserListMembers(ids: seq<ConnId>, sockets: map<ConnId, Socket>, self: ConnId, e: UserEntry)
    ensures e in UserList(ids, sockets, self) <==>
      exists i :: 0 <= i < |ids| && Listed(ids[i], sockets, self) && e == UserEntry(sockets[ids[i]].userId, sockets[ids[i]].userName)
  {
    if ids != [] {
      var p := ids[..|ids| - 1];
      UserListMembers(p, sockets, self, e);
      assert forall i :: 0 <= i < |p| ==> p[i] == ids[i];
    }
  }

  /** The `room-users` list has one entry per listed connection: it is not deduplicated. */
  lemma {:induction false} UserListLength(ids: seq<ConnId>, sockets: map<ConnId, Socket>, self: ConnId)
    ensures |UserList(ids, sockets, self)| == |set i | 0 <= i < |ids| && Listed(ids[i], sockets, self)|
  {
    if ids != [] {
      var n := |ids| - 1;
      var p := ids[..n];
      UserListLength(p, sockets, self);
      var before := set i | 0 <= i < n && Listed(p[i], sockets, self);
      var after := set i | 0 <= i < |ids| && Listed(ids[i], sockets, self);
      assert before == set i | 0 <= i < n && Listed(ids[i], sockets, self);
      if Listed(ids[n], sockets, self) {
        assert after == before + {n};
      } else {
        assert after == before;
      }
    }
  }

  /** The join scan over one connection: its entry if it is listed, nothing otherwise. */
  lemma UserListSingle(id: ConnId, sockets: map<ConnId, Socket>, self: ConnId)
    ensures UserList([id], sockets, self) ==
      if Listed(id, sockets, self) then [UserEntry(sockets[id].userId, sockets[id].userName)] else []
  {
    assert [id][..0] == [];
  }

  /** The join scan goes through the room in order: scanning `a + b` lists `a`'s entries, then
      `b`'s. With `UserListSingle` this fixes the list entry by entry, one per listed connection,
      in the room's join order. */
  lemma {:induction false} UserListAppend(a: seq<ConnId>, b: seq<ConnId>, sockets: map<ConnId, Socket>, self: ConnId)
    ensures UserList(a + b, sockets, self) == UserList(a, sockets, self) + UserList(b, sockets, self)
    decreases |b|
  {
    if b == [] {
      assert a + b == a;
    } else {
      var n := |b| - 1;
      assert (a + b)[..|a + b| - 1] == a + b[..n];
      assert (a + b)[|a + b| - 1] == b[n];
      UserListAppend(a, b[..n], sockets, self);
    }
  }

  /** The disconnect scan finds `u` exactly when some socket of `ids` carries it. */
  lemma {:induction false} CarriesMembers(ids: seq<ConnId>, sockets: map<ConnId, Socket>, u: UserId)
    ensures Carries(ids, sockets, u) <==> exists i :: 0 <= i < |ids| && ids[i] in sockets && sockets[ids[i]].userId == u
  {
    if ids != [] {
      var p := ids[..|ids| - 1];
      CarriesMembers(p, sockets, u);
      assert forall i :: 0 <= i < |p| ==> p[i] == ids[i];
    }
  }

  /** For a non-empty identifier and a scan that does not meet the joiner, the duplicate flag is
      exactly "some socket of `ids` carries the identifier". */
  lemma {:induction false} DuplicateIsCarries(ids: seq<ConnId>, sockets: map<ConnId, Socket>, self: ConnId, u: UserId)
    requires u != "" && self !in ids
    ensures IsDuplicate(ids, sockets, self, u) == Carries(ids, sockets, u)
  {
    if ids != [] {
      DuplicateIsCarries(ids[..|ids| - 1], sockets, self, u);
    }
  }

  lemma CarriesSnoc(ids: seq<ConnId>, id: ConnId, sockets: map<ConnId, Socket>, u: UserId)
    ensures Carries(ids + [id], sockets, u) == (Carries(ids, sockets, u) || (id in sockets && sockets[id].userId == u))
  {
    assert (ids + [id])[..|ids|] == ids;
  }

  /** Removing connection `x`, whose socket does not carry `u`, does not change whether `u` is carried. */
  lemma {:induction false} CarriesWithout(ids: seq<ConnId>, sockets: map<ConnId, Socket>, x: ConnId, u: UserId)
    requires x in sockets && sockets[x].userId != u
    ensures Carries(Without(ids, x), sockets - {x}, u) == Carries(ids, sockets, u)
  {
    if ids != [] {
      var p := ids[..|ids| - 1];
      var last := ids[|ids| - 1];
      assert ids == p + [last];
      CarriesWithout(p, sockets, x, u);
      CarriesSnoc(p, last, sockets, u);
      var w := Without(p, x);
      if last != x {
        assert Without(ids, x) == w + [last];
        CarriesSnoc(w, last, sockets - {x}, u);
      } else {
        assert Without(ids, x) == w;
      }
    }
  }

  /** The last `MaxMessages` elements of `s` (all of it when it is shorter). */
  function Latest(s: seq<ChatMessage>): (r: seq<ChatMessage>)
    ensures |r| <= MaxMessages
    ensures |s| <= MaxMessages ==> r == s
    ensures |s| > MaxMessages ==> |r| == MaxMessages && s == s[..|s| - MaxMessages] + r
  {
    if |s| <= MaxMessages then s else s[|s| - MaxMessages..]
  }

  /** A room's log after posting `m`: push, then shift once if the log is over `MaxMessages`. */
  function Pushed(log: seq<ChatMessage>, m: ChatMessage): (r: seq<ChatMessage>)
    ensures |log| <= MaxMessages ==> r == Latest(log + [m])
    ensures |r| > 0 && r[|r| - 1] == m
  {
    var grown := log + [m];
    if |grown| > MaxMessages then grown[1..] else grown
  }

  /** The log after posting every message of `ms`, in order, starting from `log`. */
  function PushedAll(log: seq<ChatMessage>, ms: seq<ChatMessage>): seq<ChatMessage>
  {
    if ms == [] then log else Pushed(PushedAll(log, ms[..|ms| - 1]), ms[|ms| - 1])
  }

  /** The `join-room` handler for connection `cid`. The transport adds `cid` to the room first; the
      scan then runs over the whole room, skipping `cid`; `room-users` and `chat-history` go to the
      joiner; `user-connected` goes to the rest of the room unless the scan saw the same identifier. */
  function Join(d: Directory, cid: ConnId, roomId: RoomId, userId: UserId, userName: string): Directory
    requires cid !in d.sockets
  {
    var name := DisplayName(userId, userName);
    var room := Members(d, roomId) + [cid];
    var sockets := d.sockets[cid := Socket(userId, name, roomId)];
    var replied := d.outbox
      + [Emit(roomId, [cid], RoomUsers(UserList(room, sockets, cid), name))]
      + [Emit(roomId, [cid], ChatHistory(History(d, roomId)))];
    var outbox :=
      if IsDuplicate(room, sockets, cid, userId) then replied
      else replied + [Emit(roomId, Without(room, cid), UserConnected(userId, name))];
    Directory(d.rooms[roomId := room], sockets, d.chats, outbox)
  }

  /** The `disconnect` handler of connection `cid`. The transport has already taken the socket out
      of its room (dropping a room left empty) and out of its socket table; the handler then scans
      what is left and sends `user-disconnected` only if no remaining socket carries the identifier.
      A connection that never joined has no handler. */
  function Disconnect(d: Directory, cid: ConnId): Directory
  {
    if cid !in d.sockets then d
    else
      var s := d.sockets[cid];
      var rest := Without(Members(d, s.roomId), cid);
      var sockets := d.sockets - {cid};
      var rooms := if rest == [] then d.rooms - {s.roomId} else d.rooms[s.roomId := rest];
      var outbox :=
        if Carries(rest, sockets, s.userId) then d.outbox
        else d.outbox + [Emit(s.roomId, Without(rest, cid), UserDisconnected(s.userId))];
      Directory(rooms, sockets, d.chats, outbox)
  }

  /** The `chat-message` handler of connection `cid` for text `text`, stamped `timestamp`: the
      message goes into the room's log and to every other connection of the room. A connection
      that never joined has no handler. */
  function Post(d: Directory, cid: ConnId, text: string, timestamp: string): Directory
  {
    if cid !in d.sockets then d
    else
      var s := d.sockets[cid];
      var m := ChatMessage(s.userId, s.userName, text, timestamp);
      Directory(d.rooms, d.sockets, d.chats[s.roomId := Pushed(History(d, s.roomId), m)],
                d.outbox + [Emit(s.roomId, Without(Members(d, s.roomId), cid), Chat(m))])
  }

  /** The state is consistent: every member of a room is a joined socket of that room, every
      joined socket is a member of its room, and every log is within `MaxMessages`. */
  ghost predicate Valid(d: Directory)
  {
    && (forall r, i | r in d.rooms && 0 <= i < |d.rooms[r]| ::
          d.rooms[r][i] in d.sockets && d.sockets[d.rooms[r][i]].roomId == r)
    && (forall c | c in d.sockets :: d.sockets[c].roomId in d.rooms && c in d.rooms[d.sockets[c].roomId])
    && (forall r | r in d.chats :: |d.chats[r]| <= MaxMessages)
  }

  /** How one emitted event changes the presence count of `u` in room `r`. */
  ghost function Delta(e: Emit, r: RoomId, u: UserId): int
  {
    if e.room != r then 0
    else match e.event
      case UserConnected(v, _) => if v == u then 1 else 0
      case UserDisconnected(v) => if v == u then -1 else 0
      case _ => 0
  }

  /** `user-connected` broadcasts minus `user-disconnected` broadcasts for `u` in room `r`. */
  ghost function Net(outbox: seq<Emit>, r: RoomId, u: UserId): int
  {
    if outbox == [] then 0 else Net(outbox[..|outbox| - 1], r, u) + Delta(outbox[|outbox| - 1], r, u)
  }

  /** For every non-empty identifier and every room, the broadcasts so far leave a net count of
      one exactly when a live connection of that room carries the identifier, and zero otherwise. */
  ghost predicate Balanced(d: Directory)
  {
    forall r, u | u != "" :: Net(d.outbox, r, u) == if Carries(Members(d, r), d.sockets, u) then 1 else 0
  }

  lemma NetSnoc(o: seq<Emit>, e: Emit, r: RoomId, u: UserId)
    ensures Net(o + [e], r, u) == Net(o, r, u) + Delta(e, r, u)
  {
    assert (o + [e])[..|o|] == o;
  }

  /** Sequences `ids` that look `cid` up the same way in `s1` and in `s2` give the same scans. */
  lemma ScansFramed(ids: seq<ConnId>, s1: map<ConnId, Socket>, s2: map<ConnId, Socket>, self: ConnId, u: UserId)
    requires forall i | 0 <= i < |ids| :: (ids[i] in s1 <==> ids[i] in s2) && (ids[i] in s1 ==> s1[ids[i]] == s2[ids[i]])
    ensures Carries(ids, s1, u) == Carries(ids, s2, u)
    ensures IsDuplicate(ids, s1, self, u) == IsDuplicate(ids, s2, self, u)
    ensures UserList(ids, s1, self) == UserList(ids, s2, self)
  {
    if ids != [] {
      var p := ids[..|ids| - 1];
      ScansFramed(p, s1, s2, self, u);
    }
  }

  /** The join scan of a room that already holds the joiner: the joiner contributes nothing,
      and for a non-empty identifier the duplicate flag is exactly "a connection that was already
      there carries it". */
  lemma JoinScan(before: seq<ConnId>, sockets: map<ConnId, Socket>, cid: ConnId, sock: Socket)
    requires cid !in before
    ensures UserList(before + [cid], sockets[cid := sock], cid) == UserList(before, sockets, cid)
    ensures sock.userId != "" ==>
      (IsDuplicate(before + [cid], sockets[cid := sock], cid, sock.userId) <==> Carries(before, sockets, sock.userId))
  {
    var all := before + [cid];
    var s' := sockets[cid := sock];
    assert all[..|before|] == before;
    ScansFramed(before, sockets, s', cid, sock.userId);
    if sock.userId != "" {
      DuplicateIsCarries(before, sockets, cid, sock.userId);
    }
  }

  /** After `cid` joins with `sock`, an identifier is carried in the room exactly when it was
      carried before or is the joiner's. */
  lemma JoinCarries(before: seq<ConnId>, sockets: map<ConnId, Socket>, cid: ConnId, sock: Socket, u: UserId)
    requires cid !in before
    ensures Carries(before + [cid], sockets[cid := sock], u) <==> Carries(before, sockets, u) || sock.userId == u
  {
    assert (before + [cid])[..|before|] == before;
    ScansFramed(before, sockets, sockets[cid := sock], cid, u);
  }

  /** Join keeps the state consistent. */
  lemma JoinKeepsValid(d: Directory, cid: ConnId, roomId: RoomId, userId: UserId, userName: string)
    requires Valid(d) && cid !in d.sockets
    ensures Valid(Join(d, cid, roomId, userId, userName))
  {
    var d' := Join(d, cid, roomId, userId, userName);
    var before := Members(d, roomId);
    assert d'.rooms == d.rooms[roomId := before + [cid]];
    forall r, i | r in d'.rooms && 0 <= i < |d'.rooms[r]|
      ensures d'.rooms[r][i] in d'.sockets && d'.sockets[d'.rooms[r][i]].roomId == r
    {
      if r == roomId && i < |before| {
        assert d'.rooms[r][i] == before[i];
      }
    }
  }

  /** What a join adds to the net count of `u` in room `r`: one exactly for the joiner's own
      identifier and room, when the scan found no duplicate. */
  lemma JoinNet(d: Directory, cid: ConnId, roomId: RoomId, userId: UserId, userName: string, r: RoomId, u: UserId)
    requires cid !in d.sockets
    ensures var d' := Join(d, cid, roomId, userId, userName);
      var dup := IsDuplicate(Members(d, roomId) + [cid], d'.sockets, cid, userId);
      Net(d'.outbox, r, u) == Net(d.outbox, r, u) + (if r == roomId && u == userId && !dup then 1 else 0)
  {
    var d' := Join(d, cid, roomId, userId, userName);
    var name := DisplayName(userId, userName);
    var before := Members(d, roomId);
    var e1 := Emit(roomId, [cid], RoomUsers(UserList(before + [cid], d'.sockets, cid), name));
    var e2 := Emit(roomId, [cid], ChatHistory(History(d, roomId)));
    var e3 := Emit(roomId, Without(before + [cid], cid), UserConnected(userId, name));
    NetSnoc(d.outbox, e1, r, u);
    NetSnoc(d.outbox + [e1], e2, r, u);
    if IsDuplicate(before + [cid], d'.sockets, cid, userId) {
      assert d'.outbox == d.outbox + [e1] + [e2];
    } else {
      assert d'.outbox == d.outbox + [e1] + [e2] + [e3];
      NetSnoc(d.outbox + [e1] + [e2], e3, r, u);
    }
  }

  /** After a join, `u` is carried in room `r` exactly when it was before or is the joiner's
      identifier in the joiner's room. */
  lemma JoinCarriesAt(d: Directory, cid: ConnId, roomId: RoomId, userId: UserId, userName: string, r: RoomId, u: UserId)
    requires cid !in d.sockets && cid !in Members(d, r)
    ensures var d' := Join(d, cid, roomId, userId, userName);
      Carries(Members(d', r), d'.sockets, u) <==> Carries(Members(d, r), d.sockets, u) || (r == roomId && u == userId)
  {
    var d' := Join(d, cid, roomId, userId, userName);
    var sock := Socket(userId, DisplayName(userId, userName), roomId);
    if r != roomId {
      var ids := Members(d, r);
      assert Members(d', r) == ids;
      assert forall i | 0 <= i < |ids| :: ids[i] != cid;
      ScansFramed(ids, d.sockets, d'.sockets, cid, u);
    } else {
      JoinCarries(Members(d, r), d.sockets, cid, sock, u);
    }
  }

  /** Join keeps the net count of one identifier in one room in step with that room's connections,
      given that the joiner is in no room yet. */
  lemma JoinBalancedAt(d: Directory, cid: ConnId, roomId: RoomId, userId: UserId, userName: string, r: RoomId, u: UserId)
    requires cid !in d.sockets && u != ""
    requires cid !in Members(d, roomId) && cid !in Members(d, r)
    requires Net(d.outbox, r, u) == if Carries(Members(d, r), d.sockets, u) then 1 else 0
    ensures var d' := Join(d, cid, roomId, userId, userName);
      Net(d'.outbox, r, u) == if Carries(Members(d', r), d'.sockets, u) then 1 else 0
  {
    JoinNet(d, cid, roomId, userId, userName, r, u);
    JoinCarriesAt(d, cid, roomId, userId, userName, r, u);
    if r == roomId && u == userId {
      JoinScan(Members(d, roomId), d.sockets, cid, Socket(userId, DisplayName(userId, userName), roomId));
    }
  }

  /** Join keeps the presence broadcasts balanced: `user-connected` goes out for a non-empty
      identifier exactly when no connection of the room carried it before. */
  lemma JoinKeepsBalanced(d: Directory, cid: ConnId, roomId: RoomId, userId: UserId, userName: string)
    requires Valid(d) && Balanced(d) && cid !in d.sockets
    ensures Balanced(Join(d, cid, roomId, userId, userName))
  {
    var d' := Join(d, cid, roomId, userId, userName);
    forall r, u | u != ""
      ensures Net(d'.outbox, r, u) == if Carries(Members(d', r), d'.sockets, u) then 1 else 0
    {
      NotAMember(d, cid, roomId);
      NotAMember(d, cid, r);
      JoinBalancedAt(d, cid, roomId, userId, userName, r, u);
    }
  }

  /** A connection that has not joined is in no room. */
  lemma NotAMember(d: Directory, cid: ConnId, r: RoomId)
    requires Valid(d) && cid !in d.sockets
    ensures cid !in Members(d, r)
  {
    var ids := Members(d, r);
    forall i | 0 <= i < |ids| ensures ids[i] != cid { assert ids[i] in d.sockets; }
  }

  /** Disconnect keeps the state consistent. */
  lemma DisconnectKeepsValid(d: Directory, cid: ConnId)
    requires Valid(d)
    ensures Valid(Disconnect(d, cid))
  {
    if cid in d.sockets {
      var d' := Disconnect(d, cid);
      var s := d.sockets[cid];
      var room := Members(d, s.roomId);
      var rest := Without(room, cid);
      WithoutMembers(room, cid);
      forall r, i | r in d'.rooms && 0 <= i < |d'.rooms[r]|
        ensures d'.rooms[r][i] in d'.sockets && d'.sockets[d'.rooms[r][i]].roomId == r
      {
        if r == s.roomId {
          assert d'.rooms[r] == rest;
          assert rest[i] in room && rest[i] != cid;
          var j :| 0 <= j < |room| && room[j] == rest[i];
        } else {
          assert d'.rooms[r] == d.rooms[r];
          assert d'.rooms[r][i] in d.sockets && d.sockets[d'.rooms[r][i]].roomId == r;
        }
      }
      forall c | c in d'.sockets
        ensures d'.sockets[c].roomId in d'.rooms && c in d'.rooms[d'.sockets[c].roomId]
      {
        var rc := d.sockets[c].roomId;
        if rc == s.roomId {
          assert c in rest;
        }
      }
    }
  }

  /** Disconnect keeps the presence broadcasts balanced: `user-disconnected` goes out exactly when
      the identifier was carried in the room and no remaining connection carries it. */
  lemma DisconnectKeepsBalanced(d: Directory, cid: ConnId)
    requires Valid(d) && Balanced(d)
    ensures Balanced(Disconnect(d, cid))
  {
    if cid in d.sockets {
      var d' := Disconnect(d, cid);
      var s := d.sockets[cid];
      var room := Members(d, s.roomId);
      var rest := Without(room, cid);
      assert Members(d', s.roomId) == rest;
      var e := Emit(s.roomId, Without(rest, cid), UserDisconnected(s.userId));
      assert d'.outbox == if Carries(rest, d'.sockets, s.userId) then d.outbox else d.outbox + [e];
      var k :| 0 <= k < |room| && room[k] == cid;
      forall r, u | u != ""
        ensures Net(d'.outbox, r, u) == if Carries(Members(d', r), d'.sockets, u) then 1 else 0
      {
        NetSnoc(d.outbox, e, r, u);
        if r != s.roomId {
          var ids := Members(d, r);
          assert Members(d', r) == ids;
          assert forall i | 0 <= i < |ids| :: ids[i] in d.sockets && ids[i] != cid;
          ScansFramed(ids, d.sockets, d'.sockets, cid, u);
        } else if u != s.userId {
          CarriesWithout(room, d.sockets, cid, u);
        } else {
          CarriesMembers(room, d.sockets, u);
        }
      }
    }
  }

  /** Post keeps the state valid and balanced. */
  lemma PostKeepsInvariants(d: Directory, cid: ConnId, text: string, timestamp: string)
    requires Valid(d) && Balanced(d)
    ensures Valid(Post(d, cid, text, timestamp))
    ensures Balanced(Post(d, cid, text, timestamp))
  {
    if cid in d.sockets {
      var d' := Post(d, cid, text, timestamp);
      var s := d.sockets[cid];
      var e := d'.outbox[|d.outbox|];
      assert d'.outbox == d.outbox + [e];
      forall r, u | u != ""
        ensures Net(d'.outbox, r, u) == if Carries(Members(d', r), d'.sockets, u) then 1 else 0
      {
        NetSnoc(d.outbox, e, r, u);
      }
    }
  }

  /** The joiner's scan never reports a duplicate for the empty identifier (its `userId` check is falsy). */
  lemma NoDuplicateOfEmpty(ids: seq<ConnId>, sockets: map<ConnId, Socket>, self: ConnId)
    ensures !IsDuplicate(ids, sockets, self, "")
  {
  }

  /** What a join sends: the joiner gets the list of the connections that were already in the
      room (never itself) and the room's log (empty if nobody ever posted); the connections that
      were already there get `user-connected` exactly when none of them carried the identifier
      (always, for the empty identifier). */
  lemma JoinReplies(d: Directory, cid: ConnId, roomId: RoomId, userId: UserId, userName: string)
    requires Valid(d) && cid !in d.sockets
    ensures
      var d' := Join(d, cid, roomId, userId, userName);
      var name := DisplayName(userId, userName);
      var before := Members(d, roomId);
      var announced := userId == "" || !Carries(before, d.sockets, userId);
      && Members(d', roomId) == before + [cid]
      && (forall r :: r != roomId ==> Members(d', r) == Members(d, r))
      && d'.sockets == d.sockets[cid := Socket(userId, name, roomId)]
      && d'.chats == d.chats
      && |d'.outbox| == |d.outbox| + (if announced then 3 else 2)
      && d'.outbox[..|d.outbox|] == d.outbox
      && d'.outbox[|d.outbox|] == Emit(roomId, [cid], RoomUsers(UserList(before, d.sockets, cid), name))
      && d'.outbox[|d.outbox| + 1] == Emit(roomId, [cid], ChatHistory(History(d, roomId)))
      && (announced ==> d'.outbox[|d.outbox| + 2] == Emit(roomId, before, UserConnected(userId, name)))
  {
    var d' := Join(d, cid, roomId, userId, userName);
    var name := DisplayName(userId, userName);
    var before := Members(d, roomId);
    var sock := Socket(userId, name, roomId);
    var sockets := d.sockets[cid := sock];
    assert cid !in before by {
      forall i | 0 <= i < |before| ensures before[i] != cid { assert before[i] in d.sockets; }
    }
    JoinScan(before, d.sockets, cid, sock);
    NoDuplicateOfEmpty(before + [cid], sockets, cid);
    WithoutMembers(before, cid);
    assert (before + [cid])[..|before|] == before;
    assert Without(before + [cid], cid) == before;
    var announced := userId == "" || !Carries(before, d.sockets, userId);
    assert announced == !IsDuplicate(before + [cid], sockets, cid, userId);
    var e1 := Emit(roomId, [cid], RoomUsers(UserList(before, d.sockets, cid), name));
    var e2 := Emit(roomId, [cid], ChatHistory(History(d, roomId)));
    var e3 := Emit(roomId, before, UserConnected(userId, name));
    assert d'.outbox == if announced then d.outbox + [e1, e2, e3] else d.outbox + [e1, e2];
  }

  /** What a disconnect sends: nothing for a connection that never joined; otherwise the
      connection leaves its room and the socket table, and the rest of the room gets
      `user-disconnected` exactly when no remaining connection carries the identifier. */
  lemma DisconnectReplies(d: Directory, cid: ConnId)
    requires Valid(d)
    ensures cid !in d.sockets ==> Disconnect(d, cid) == d
    ensures cid in d.sockets ==>
      var s := d.sockets[cid];
      var d' := Disconnect(d, cid);
      var rest := Without(Members(d, s.roomId), cid);
      var gone := !Carries(rest, d.sockets, s.userId);
      && d'.sockets == d.sockets - {cid}
      && Members(d', s.roomId) == rest
      && (forall r :: r != s.roomId ==> Members(d', r) == Members(d, r))
      && (forall x :: x in rest <==> x in Members(d, s.roomId) && x != cid)
      && d'.chats == d.chats
      && |d'.outbox| == |d.outbox| + (if gone then 1 else 0)
      && d'.outbox[..|d.outbox|] == d.outbox
      && (gone ==> d'.outbox[|d.outbox|] == Emit(s.roomId, rest, UserDisconnected(s.userId)))
  {
    if cid in d.sockets {
      var s := d.sockets[cid];
      var room := Members(d, s.roomId);
      var rest := Without(room, cid);
      WithoutMembers(room, cid);
      WithoutMembers(rest, cid);
      ScansFramed(rest, d.sockets, d.sockets - {cid}, cid, s.userId);
      DisconnectOtherRooms(d, cid);
    }
  }

  /** A disconnect touches only the leaver's room. */
  lemma DisconnectOtherRooms(d: Directory, cid: ConnId)
    requires cid in d.sockets
    ensures forall r :: r != d.sockets[cid].roomId ==> Members(Disconnect(d, cid), r) == Members(d, r)
  {
  }

  /** What a chat post does: the message carries the sender's identifier and stored name; the
      room's log gains it at the end, dropping its oldest entry only when it already held
      `MaxMessages`; and it is relayed to every connection of the room except the sender. */
  lemma PostRelays(d: Directory, cid: ConnId, text: string, timestamp: string)
    requires Valid(d)
    ensures cid !in d.sockets ==> Post(d, cid, text, timestamp) == d
    ensures cid in d.sockets ==>
      var s := d.sockets[cid];
      var m := ChatMessage(s.userId, s.userName, text, timestamp);
      var log := History(d, s.roomId);
      var d' := Post(d, cid, text, timestamp);
      && d'.rooms == d.rooms && d'.sockets == d.sockets
      && d'.chats == d.chats[s.roomId := d'.chats[s.roomId]]
      && |d'.chats[s.roomId]| <= MaxMessages
      && (|log| < MaxMessages ==> d'.chats[s.roomId] == log + [m])
      && (|log| == MaxMessages ==> d'.chats[s.roomId] == log[1..] + [m])
      && |d'.outbox| == |d.outbox| + 1
      && d'.outbox[..|d.outbox|] == d.outbox
      && d'.outbox[|d.outbox|] == Emit(s.roomId, d'.outbox[|d.outbox|].to, Chat(m))
      && (forall x :: x in d'.outbox[|d.outbox|].to <==> x in Members(d, s.roomId) && x != cid)
  {
    if cid in d.sockets {
      var s := d.sockets[cid];
      WithoutMembers(Members(d, s.roomId), cid);
    }
  }

  lemma LatestSnoc(s: seq<ChatMessage>, m: ChatMessage)
    ensures Latest(Latest(s) + [m]) == Latest(s + [m])
  {
    if |s| > MaxMessages {
      var n := |s|;
      assert Latest(s) + [m] == s[n - MaxMessages..] + [m];
      assert (s[n - MaxMessages..] + [m])[1..] == s[n - MaxMessages + 1..] + [m];
      assert (s + [m])[n + 1 - MaxMessages..] == s[n - MaxMessages + 1..] + [m];
    }
  }

  /** The log is a bounded FIFO: however many messages are posted to a log within the bound,
      it holds the latest `MaxMessages` of everything posted, oldest first. */
  lemma {:induction false} PushedAllLatest(log: seq<ChatMessage>, ms: seq<ChatMessage>)
    requires |log| <= MaxMessages
    ensures PushedAll(log, ms) == Latest(log + ms)
  {
    if ms != [] {
      var p := ms[..|ms| - 1];
      var m := ms[|ms| - 1];
      assert ms == p + [m];
      var before := PushedAll(log, p);
      assert PushedAll(log, ms) == Pushed(before, m);
      PushedAllLatest(log, p);
      assert Pushed(before, m) == Latest(Latest(log + p) + [m]);
      LatestSnoc(log + p, m);
      assert log + ms == (log + p) + [m];
    }
  }

  /** One handler invocation: `join-room`, `disconnect` or `chat-message` on a connection. */
  datatype Op =
    | JoinOp(cid: ConnId, roomId: RoomId, userId: UserId, userName: string)
    | DisconnectOp(cid: ConnId)
    | ChatOp(cid: ConnId, text: string, timestamp: string)

  /** Every connection emits `join-room` at most once. */
  predicate Admissible(d: Directory, op: Op)
  {
    op.JoinOp? ==> op.cid !in d.sockets
  }

  function Apply(d: Directory, op: Op): Directory
    requires Admissible(d, op)
  {
    match op
    case JoinOp(cid, roomId, userId, userName) => Join(d, cid, roomId, userId, userName)
    case DisconnectOp(cid) => Disconnect(d, cid)
    case ChatOp(cid, text, timestamp) => Post(d, cid, text, timestamp)
  }

  /** Each operation of `ops` is admissible in the state the previous ones leave. */
  predicate AdmissibleRun(d: Directory, ops: seq<Op>)
    decreases |ops|
  {
    ops == [] || (Admissible(d, ops[0]) && AdmissibleRun(Apply(d, ops[0]), ops[1..]))
  }

  function Run(d: Directory, ops: seq<Op>): Directory
    requires AdmissibleRun(d, ops)
    decreases |ops|
  {
    if ops == [] then d else Run(Apply(d, ops[0]), ops[1..])
  }

  /** Every handler keeps the state valid and balanced, so every run does. */
  lemma {:induction false} RunKeepsInvariants(d: Directory, ops: seq<Op>)
    requires Valid(d) && Balanced(d) && AdmissibleRun(d, ops)
    ensures Valid(Run(d, ops)) && Balanced(Run(d, ops))
    decreases |ops|
  {
    if ops != [] {
      var op := ops[0];
      if op.JoinOp? {
        JoinKeepsValid(d, op.cid, op.roomId, op.userId, op.userName);
        JoinKeepsBalanced(d, op.cid, op.roomId, op.userId, op.userName);
      } else if op.DisconnectOp? {
        DisconnectKeepsValid(d, op.cid);
        DisconnectKeepsBalanced(d, op.cid);
      } else {
        PostKeepsInvariants(d, op.cid, op.text, op.timestamp);
      }
      RunKeepsInvariants(Apply(d, op), ops[1..]);
    }
  }

  /** Over any run from process start, and for every room and non-empty identifier, broadcast
      connects minus broadcast disconnects is 0 or 1, and it is 1 exactly when a live
      connection of the room carries the identifier; every log stays within `MaxMessages`. */
  lemma PresenceCount(ops: seq<Op>)
    requires AdmissibleRun(Initial, ops)
    ensures forall r, u | u != "" ::
      var d := Run(Initial, ops);
      0 <= Net(d.outbox, r, u) <= 1 && (Net(d.outbox, r, u) == 1 <==> Carries(Members(d, r), d.sockets, u))
    ensures forall r | r in Run(Initial, ops).chats :: |Run(Initial, ops).chats[r]| <= MaxMessages
  {
    RunKeepsInvariants(Initial, ops);
  }

  /** The first `n` handler calls of a run are a run. */
  lemma {:induction false} PrefixAdmissible(d: Directory, ops: seq<Op>, n: nat)
    requires AdmissibleRun(d, ops) && n <= |ops|
    ensures AdmissibleRun(d, ops[..n])
    decreases n
  {
    if n > 0 {
      assert ops[..n][0] == ops[0];
      assert ops[..n][1..] == ops[1..][..n - 1];
      PrefixAdmissible(Apply(d, ops[0]), ops[1..], n - 1);
    }
  }

  /** The presence count holds after every handler call of a run, not only at its end. */
  lemma PresenceCountAtEveryStep(ops: seq<Op>, n: nat)
    requires AdmissibleRun(Initial, ops) && n <= |ops|
    ensures AdmissibleRun(Initial, ops[..n])
    ensures forall r, u | u != "" ::
      var d := Run(Initial, ops[..n]);
      0 <= Net(d.outbox, r, u) <= 1 && (Net(d.outbox, r, u) == 1 <==> Carries(Members(d, r), d.sockets, u))
  {
    PrefixAdmissible(Initial, ops, n);
    PresenceCount(ops[..n]);
  }

  /** The `room-users` list is not deduplicated: two tabs of one participant give two entries. */
  lemma TwoTabsListedTwice()
    ensures
      var sockets := map["a" := Socket("p", "Pat", "R"), "b" := Socket("p", "Pat", "R")];
      UserList(["a", "b"], sockets, "c") == [UserEntry("p", "Pat"), UserEntry("p", "Pat")]
  {
    var ids: seq<ConnId> := ["a", "b"];
    assert ids[..1] == ["a"];
    assert ids[..1][..0] == [];
  }
}
