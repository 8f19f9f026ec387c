/** The browser client's bookkeeping as the script runs it: the page's variables are fields that
    its functions and event handlers update in place, the `forEach` loops are loops, and each
    handler is proved to do what the corresponding function of `ClientState` describes. */
module Client {
  import opened Protocol
  import opened ClientState

  class ConnectionManager {
    /** The identifier `getUserId` returned. */
    const userId: UserId
    /** `myPeer.id`. */
    const peerId: UserId
    var participants: set<UserId>
    /** The participant list's items, in order. */
    var roster: seq<UserId>
    /** The displayed participant count. */
    var count: nat
    var peers: map<UserId, Call>
    /** Every call handed to `myPeer.call`, in order. */
    var placed: seq<Call>
    /** Every call closed with `close()`, in order. */
    var closed: seq<Call>
    /** `userVideos`. */
    var videos: map<UserId, Video>
    /** `pendingUsers`. */
    var pending: seq<UserId>
    /** `myStream`. */
    var stream: Option<Stream>
    /** The caller of every inbound call answered, in order. */
    var answered: seq<UserId>
    /** The chat pane's lines. */
    var chat: seq<ChatLine>

    ghost function View(): Page
      reads this
    {
      Page(userId, peerId, participants, roster, count, peers, placed, closed, videos, pending, stream, answered, chat)
    }

    ghost predicate Valid()
      reads this
    {
      ClientState.Valid(View())
    }

    constructor (userId: UserId, peerId: UserId)
      ensures Valid() && View() == Start(userId, peerId)
    {
      this.userId, this.peerId := userId, peerId;
      participants, roster, count := {}, [], 0;
      peers, placed, closed, videos := map[], [], [], map[];
      pending, stream, answered, chat := [], None, [], [];
    }

    /** `updateParticipantCount`. */
    method UpdateParticipantCount()
      modifies this
      ensures View() == ClientState.UpdateParticipantCount(old(View()))
    {
      count := |participants|;
    }

    /** `addParticipant`; its `isYou` flag only chooses the label. */
    method AddParticipant(u: UserId)
      requires Valid()
      modifies this
      ensures Valid() && View() == ClientState.AddParticipant(old(View()), u)
    {
      AddParticipantSpec(View(), u);
      if u in participants {
        return;
      }
      participants := participants + {u};
      roster := roster + [u];
      UpdateParticipantCount();
    }

    /** `removeParticipant`. */
    method RemoveParticipant(u: UserId)
      requires Valid()
      modifies this
      ensures Valid() && View() == ClientState.RemoveParticipant(old(View()), u)
    {
      RemoveParticipantSpec(View(), u);
      if u !in participants {
        return;
      }
      participants := participants - {u};
      roster := Without(roster, u);
      UpdateParticipantCount();
    }

    /** `connectToNewUser`: the call handle stands for what `myPeer.call` returns. */
    method ConnectToNewUser(u: UserId, s: Stream)
      requires Valid()
      modifies this
      ensures Valid() && View() == ClientState.ConnectToNewUser(old(View()), u, s)
    {
      ConnectToNewUserSpec(View(), u, s);
      if u in peers {
        return;
      }
      var call := Call(u, s, |placed|);
      placed := placed + [call];
      peers := peers[u := call];
    }

    /** `removeVideo`. */
    method RemoveVideo(u: UserId)
      requires Valid()
      modifies this
      ensures Valid() && View() == ClientState.RemoveVideo(old(View()), u)
    {
      if u in videos {
        videos := videos - {u};
      }
    }

    /** The `user-connected` handler. */
    method OnUserConnected(u: UserId)
      requires Valid()
      modifies this
      ensures Valid() && View() == ClientState.UserConnected(old(View()), u)
    {
      if stream.Some? {
        ConnectToNewUser(u, stream.value);
        AddParticipant(u);
      } else {
        pending := pending + [u];
      }
    }

    /** The `room-users` handler, over the identifiers it is given. */
    method OnRoomUsers(users: seq<UserId>)
      requires Valid()
      modifies this
      ensures Valid() && View() == ClientState.RoomUsers(old(View()), users)
    {
      ghost var p := View();
      var i := 0;
      while i < |users|
        invariant 0 <= i <= |users|
        invariant Valid()
        invariant View() == ClientState.RoomUsers(p, users[..i])
      {
        RoomUsersStep(p, users, i);
        RoomUser(users[i]);
        i := i + 1;
      }
      assert users[..|users|] == users;
    }

    /** One round of the `room-users` loop. */
    method RoomUser(u: UserId)
      requires Valid()
      modifies this
      ensures Valid() && View() == ClientState.RoomUser(old(View()), u)
    {
      if u != peerId {
        AddParticipant(u);
        if stream.Some? {
          ConnectToNewUser(u, stream.value);
        } else {
          pending := pending + [u];
        }
      }
    }

    /** The local stream is ready: store it (the inbound-call handler exists from here on), then
        call and add every queued identifier in order. */
    method OnStreamReady(s: Stream)
      requires Valid() && stream.None?
      modifies this
      ensures Valid() && View() == StreamReady(old(View()), s)
    {
      stream := Some(s);
      ghost var ready := View();
      assert ready == old(View()).(stream := Some(s));
      var queue := pending;
      var i := 0;
      while i < |queue|
        invariant 0 <= i <= |queue|
        invariant Valid()
        invariant View() == Drain(ready, queue[..i], s)
      {
        var u := queue[i];
        DrainStep(ready, queue, i, s);
        ConnectToNewUser(u, s);
        AddParticipant(u);
        i := i + 1;
      }
      assert queue[..|queue|] == queue;
    }

    /** The `user-disconnected` handler. */
    method OnUserDisconnected(u: UserId)
      requires Valid()
      modifies this
      ensures Valid() && View() == ClientState.UserDisconnected(old(View()), u)
    {
      HangUpValid(View(), u);
      if u in peers {
        closed := closed + [peers[u]];
        peers := peers - {u};
      }
      RemoveParticipant(u);
      RemoveVideo(u);
    }

    /** An inbound call from `caller`; before the stream is ready no handler is registered. */
    method OnIncomingCall(caller: UserId)
      requires Valid()
      modifies this
      ensures Valid() && View() == IncomingCall(old(View()), caller)
    {
      if stream.Some? {
        answered := answered + [caller];
      }
    }

    /** The `stream` callback of a call with `u`: the video `v` now shows its remote stream. */
    method OnCallStream(u: UserId, v: Video)
      requires Valid()
      modifies this
      ensures Valid() && View() == CallStream(old(View()), u, v)
    {
      videos := videos[u := v];
    }

    /** The `close` callback of a call with `u`. */
    method OnCallClosed(u: UserId)
      requires Valid()
      modifies this
      ensures Valid() && View() == CallClosed(old(View()), u)
    {
      videos := videos - {u};
    }

    /** The `open` event of the page's peer. */
    method OnPeerOpen()
      requires Valid()
      modifies this
      ensures Valid() && View() == PeerOpen(old(View()))
    {
      AddParticipant(peerId);
    }

    /** The `chat-message` handler. */
    method OnChatMessage(m: ChatMessage)
      requires Valid()
      modifies this
      ensures Valid() && View() == ChatMessageReceived(old(View()), m)
    {
      chat := chat + [Line(m, userId)];
    }

    /** The `chat-history` handler: clear the pane, then one line per message. */
    method OnChatHistory(messages: seq<ChatMessage>)
      requires Valid()
      modifies this
      ensures Valid() && View() == ChatHistoryReceived(old(View()), messages)
    {
      chat := [];
      var i := 0;
      while i < |messages|
        invariant 0 <= i <= |messages|
        invariant Valid()
        invariant View() == old(View()).(chat := Lines(messages[..i], userId))
      {
        assert messages[..i + 1][..i] == messages[..i];
        chat := chat + [Line(messages[i], userId)];
        i := i + 1;
      }
      assert messages[..|messages|] == messages;
    }
  }
}
