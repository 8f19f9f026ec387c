/** Values that travel between the signalling server and the browser client. */
module Protocol {

  /** Participant, room and connection (socket) identifiers are opaque strings. */
  type UserId = string
  type RoomId = string
  type ConnId = string

  datatype Option<T> = None | Some(value: T)

  /** The `messageData` object the server stores and relays for one chat post. */
  datatype ChatMessage = ChatMessage(sender: UserId, senderName: string, text: string, timestamp: string)

  /** One `{id, name}` element of the `room-users` payload. */
  datatype UserEntry = UserEntry(id: UserId, name: string)

  /** The server-to-client events, with their payloads. */
  datatype Event =
    | RoomUsers(users: seq<UserEntry>, ownName: string)
    | ChatHistory(messages: seq<ChatMessage>)
    | UserConnected(userId: UserId, name: string)
    | UserDisconnected(userId: UserId)
    | Chat(message: ChatMessage)

  /** `s` with every occurrence of `x` taken out, the order of the rest kept. */
  function Without(s: seq<string>, x: string): (r: seq<string>)
    ensures |r| <= |s|
  {
    if s == [] then []
    else
      var w := Without(s[..|s| - 1], x);
      if s[|s| - 1] == x then w else w + [s[|s| - 1]]
  }

  /** What `Without` keeps: exactly the elements other than `x`. */
  lemma {:induction false} WithoutMembers(s: seq<string>, x: string)
    ensures forall y :: y in Without(s, x) <==> y in s && y != x
    ensures x !in s ==> Without(s, x) == s
  {
    if s != [] {
      var p := s[..|s| - 1];
      WithoutMembers(p, x);
      assert s == p + [s[|s| - 1]];
    }
  }

  /** No element occurs twice. */
  ghost predicate NoDuplicates<T>(s: seq<T>)
  {
    forall i, j :: 0 <= i < j < |s| ==> s[i] != s[j]
  }

  /** Taking an element out of a sequence without repetitions leaves one without repetitions. */
  lemma {:induction false} WithoutNoDuplicates(s: seq<string>, x: string)
    requires NoDuplicates(s)
    ensures NoDuplicates(Without(s, x))
  {
    if s != [] {
      var p := s[..|s| - 1];
      assert NoDuplicates(p) by {
        forall i, j | 0 <= i < j < |p| ensures p[i] != p[j] { assert p[i] == s[i] && p[j] == s[j]; }
      }
      WithoutNoDuplicates(p, x);
      WithoutMembers(p, x);
      var last := s[|s| - 1];
      if last != x {
        assert last !in p by {
          forall i | 0 <= i < |p| ensures p[i] != last { assert p[i] == s[i]; }
        }
        var w := Without(p, x);
        assert last !in w;
        assert Without(s, x) == w + [last];
      }
    }
  }
}
