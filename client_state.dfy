/** The browser client's connection bookkeeping in public/script.js, as functions on the page's
    state: the `participants` set and its list, the displayed count, the `peers` and
    `userVideos` tables, the `pendingUsers` queue, `myStream`, and the chat pane. Calls, streams
    and video elements are opaque handles. */
module ClientState {
  import opened Protocol

  /** The local media stream `getUserMedia` yields. */
  datatype Stream = Stream(token: nat)

  /** A video element bound to a remote stream. */
  datatype Video = Video(token: nat)

  /** The handle `myPeer.call(remote, stream)` returns. Calls are numbered in the order they are
      placed, so `serial` tells two calls to the same remote apart. */
  datatype Call = Call(remote: UserId, stream: Stream, serial: nat)

  /** One rendered chat message: sender, text, and whether the page sent it itself. */
  datatype ChatLine = ChatLine(sender: UserId, text: string, own: bool)

  /** The page's state. Besides the script's own variables: `roster` is the participant list's
      items in order, `count` the displayed participant count, `placed` and `closed` every call
      placed and closed so far, `answered` the caller of every inbound call answered, and `chat`
      the chat pane's lines. */
  datatype Page = Page(
    userId: UserId,
    peerId: UserId,
    participants: set<UserId>,
    roster: seq<UserId>,
    count: nat,
    peers: map<UserId, Call>,
    placed: seq<Call>,
    closed: seq<Call>,
    videos: map<UserId, Video>,
    pending: seq<UserId>,
    stream: Option<Stream>,
    answered: seq<UserId>,
    chat: seq<ChatLine>)

  /** The page right after the script starts: `userId` from the cookie, `peerId` the peer's id. */
  function Start(userId: UserId, peerId: UserId): Page
  {
    Page(userId, peerId, {}, [], 0, map[], [], [], map[], [], None, [], [])
  }

  /** The page's bookkeeping is consistent: the list shows each participant once and nothing
      else, the count is the set's size, calls are numbered by position, each entry of `peers`
      is a placed call to that identifier, and every call placed and not closed is the one
      `peers` holds for its remote, so at most one call per identifier is open. */
  ghost predicate Valid(p: Page)
  {
    && (forall u :: u in p.participants <==> u in p.roster)
    && NoDuplicates(p.roster)
    && p.count == |p.participants|
    && (forall k | 0 <= k < |p.placed| :: p.placed[k].serial == k)
    && (forall c | c in p.closed :: c.serial < |p.placed|)
    && (forall u | u in p.peers ::
          p.peers[u].remote == u && p.peers[u].serial < |p.placed| && p.placed[p.peers[u].serial] == p.peers[u])
    && (forall k | 0 <= k < |p.placed| && p.placed[k] !in p.closed ::
          p.placed[k].remote in p.peers && p.peers[p.placed[k].remote] == p.placed[k])
  }

  /** `updateParticipantCount`. */
  function UpdateParticipantCount(p: Page): Page
  {
    p.(count := |p.participants|)
  }

  /** `addParticipant`: nothing if already present; else add to the set, append a list item, update the count. */
  function AddParticipant(p: Page, u: UserId): Page
  {
    if u in p.participants then p
    else UpdateParticipantCount(p.(participants := p.participants + {u}, roster := p.roster + [u]))
  }

  /** `removeParticipant`: nothing if absent; else take it out of the set and the list, update the count. */
  function RemoveParticipant(p: Page, u: UserId): Page
  {
    if u !in p.participants then p
    else UpdateParticipantCount(p.(participants := p.participants - {u}, roster := Without(p.roster, u)))
  }

  /** `connectToNewUser`: nothing if `peers` has an entry for `u`; else call `u` with the stream and record the call. */
  function ConnectToNewUser(p: Page, u: UserId, s: Stream): Page
  {
    if u in p.peers then p
    else
      var call := Call(u, s, |p.placed|);
      p.(placed := p.placed + [call], peers := p.peers[u := call])
  }

  /** `removeVideo`: drop the video entry of `u` if there is one. */
  function RemoveVideo(p: Page, u: UserId): Page
  {
    if u in p.videos then p.(videos := p.videos - {u}) else p
  }

  /** The `user-connected` handler: call and add with the stream, queue without. */
  function UserConnected(p: Page, u: UserId): Page
  {
    match p.stream
    case Some(s) => AddParticipant(ConnectToNewUser(p, u, s), u)
    case None => p.(pending := p.pending + [u])
  }

  /** One element of the `room-users` loop: skip the page's own id; else add, then call or queue. */
  function RoomUser(p: Page, u: UserId): Page
  {
    if u == p.peerId then p
    else
      var q := AddParticipant(p, u);
      match q.stream
      case Some(s) => ConnectToNewUser(q, u, s)
      case None => q.(pending := q.pending + [u])
  }

  /** The `room-users` handler over the identifiers it is given, in order. */
  function RoomUsers(p: Page, us: seq<UserId>): Page
  {
    if us == [] then p else RoomUser(RoomUsers(p, us[..|us| - 1]), us[|us| - 1])
  }

  /** The stream-ready loop over `q`: call, then add, each identifier in order. */
  function Drain(p: Page, q: seq<UserId>, s: Stream): Page
  {
    if q == [] then p
    else
      var u := q[|q| - 1];
      AddParticipant(ConnectToNewUser(Drain(p, q[..|q| - 1], s), u, s), u)
  }

  /** The local stream becomes ready: it is stored, then every queued identifier is processed.
      The queue itself is left as it is. */
  function StreamReady(p: Page, s: Stream): Page
    requires p.stream.None?
  {
    Drain(p.(stream := Some(s)), p.pending, s)
  }

  /** The `user-disconnected` handler: close and forget the call, remove the participant, remove the video. */
  function UserDisconnected(p: Page, u: UserId): Page
  {
    RemoveVideo(RemoveParticipant(HangUp(p, u), u), u)
  }

  /** The first step of `user-disconnected`: close the call with `u` and delete its entry, if there is one. */
  function HangUp(p: Page, u: UserId): Page
  {
    if u in p.peers then p.(closed := p.closed + [p.peers[u]], peers := p.peers - {u}) else p
  }

  /** An inbound call from `caller`: the handler exists only once the stream is ready; it answers
      without looking at `peers`. */
  function IncomingCall(p: Page, caller: UserId): Page
  {
    if p.stream.None? then p else p.(answered := p.answered + [caller])
  }

  /** A call with `u` delivers its remote stream, shown in `v`. */
  function CallStream(p: Page, u: UserId, v: Video): Page
  {
    p.(videos := p.videos[u := v])
  }

  /** A call with `u` closes: its video goes. */
  function CallClosed(p: Page, u: UserId): Page
  {
    p.(videos := p.videos - {u})
  }

  /** The `open` event of the page's peer: the page lists itself. */
  function PeerOpen(p: Page): Page
  {
    AddParticipant(p, p.peerId)
  }

  function Line(m: ChatMessage, self: UserId): ChatLine
  {
    ChatLine(m.sender, m.text, m.sender == self)
  }

  /** The lines for `ms`, in order. */
  function Lines(ms: seq<ChatMessage>, self: UserId): seq<ChatLine>
  {
    if ms == [] then [] else Lines(ms[..|ms| - 1], self) + [Line(ms[|ms| - 1], self)]
  }

  /** The `chat-message` handler: one more line. */
  function ChatMessageReceived(p: Page, m: ChatMessage): Page
  {
    p.(chat := p.chat + [Line(m, p.userId)])
  }

  /** The `chat-history` handler: the pane is cleared and shows the history. */
  function ChatHistoryReceived(p: Page, ms: seq<ChatMessage>): Page
  {
    p.(chat := Lines(ms, p.userId))
  }

  /** The identifiers of `q` that are not in `known`, each once, in order of first arrival. */
  function FirstNew(known: set<UserId>, q: seq<UserId>): seq<UserId>
  {
    if q == [] then []
    else
      var f := FirstNew(known, q[..|q| - 1]);
      var u := q[|q| - 1];
      if u in known || u in f then f else f + [u]
  }

  /** The calls `ids` receive, placed in order from serial number `base` on. */
  function CallsTo(ids: seq<UserId>, s: Stream, base: nat): (r: seq<Call>)
    ensures |r| == |ids|
  {
    seq(|ids|, k requires 0 <= k < |ids| => Call(ids[k], s, base + k))
  }

  // ---------------------------------------------------------------------------------------
  // Properties

  lemma StartValid(userId: UserId, peerId: UserId)
    ensures Valid(Start(userId, peerId))
  {
  }

  /** `FirstNew` holds exactly the identifiers of `q` outside `known`, without repetition. */
  lemma {:induction false} FirstNewMembers(known: set<UserId>, q: seq<UserId>)
    ensures forall v :: v in FirstNew(known, q) <==> v in q && v !in known
    ensures NoDuplicates(FirstNew(known, q))
  {
    if q != [] {
      var p := q[..|q| - 1];
      FirstNewMembers(known, p);
      assert q == p + [q[|q| - 1]];
    }
  }

  /** `addParticipant` adds the identifier to the set, and to the list only if it was new; the
      count follows the set; nothing else changes. */
  lemma AddParticipantSpec(p: Page, u: UserId)
    requires Valid(p)
    ensures var r := AddParticipant(p, u);
      && Valid(r)
      && r.participants == p.participants + {u}
      && r.roster == (if u in p.participants then p.roster else p.roster + [u])
      && r.count == |r.participants|
      && r == p.(participants := r.participants, roster := r.roster, count := r.count)
  {
    if u !in p.participants {
      var r := AddParticipant(p, u);
      assert u !in p.roster;
      assert NoDuplicates(r.roster) by {
        forall i, j | 0 <= i < j < |r.roster| ensures r.roster[i] != r.roster[j] {
          if j == |p.roster| { assert r.roster[i] == p.roster[i]; }
        }
      }
    }
  }

  /** Adding the same identifier twice is the same as adding it once. */
  lemma AddParticipantIdempotent(p: Page, u: UserId)
    ensures AddParticipant(AddParticipant(p, u), u) == AddParticipant(p, u)
  {
  }

  /** `removeParticipant` takes the identifier out of the set and the list (a no-op when it is
      absent); the count follows the set; nothing else changes. */
  lemma RemoveParticipantSpec(p: Page, u: UserId)
    requires Valid(p)
    ensures var r := RemoveParticipant(p, u);
      && Valid(r)
      && r.participants == p.participants - {u}
      && (forall v :: v in r.roster <==> v in p.roster && v != u)
      && (u !in p.participants ==> r == p)
      && r.count == |r.participants|
      && r == p.(participants := r.participants, roster := r.roster, count := r.count)
  {
    WithoutMembers(p.roster, u);
    WithoutNoDuplicates(p.roster, u);
  }

  /** `connectToNewUser` places a call only for an identifier `peers` has no entry for, and then
      records exactly that call; while the entry exists, further calls change nothing. */
  lemma ConnectToNewUserSpec(p: Page, u: UserId, s: Stream)
    requires Valid(p)
    ensures var r := ConnectToNewUser(p, u, s);
      && Valid(r)
      && (u in p.peers ==> r == p)
      && (u !in p.peers ==> r.placed == p.placed + [Call(u, s, |p.placed|)] && r.peers == p.peers[u := Call(u, s, |p.placed|)])
      && u in r.peers
      && r == p.(placed := r.placed, peers := r.peers)
  {
    if u !in p.peers {
      var r := ConnectToNewUser(p, u, s);
      var call := Call(u, s, |p.placed|);
      assert call !in p.closed;
      forall k | 0 <= k < |r.placed| && r.placed[k] !in r.closed
        ensures r.placed[k].remote in r.peers && r.peers[r.placed[k].remote] == r.placed[k]
      {
        if k < |p.placed| {
          assert r.placed[k] == p.placed[k];
        }
      }
    }
  }

  /** The stream-ready loop keeps the page consistent. */
  lemma {:induction false} DrainValid(p: Page, q: seq<UserId>, s: Stream)
    requires Valid(p)
    ensures Valid(Drain(p, q, s))
  {
    if q != [] {
      var q' := q[..|q| - 1];
      var u := q[|q| - 1];
      DrainValid(p, q', s);
      var m := Drain(p, q', s);
      ConnectToNewUserSpec(m, u, s);
      AddParticipantSpec(ConnectToNewUser(m, u, s), u);
    }
  }

  /** The stream-ready loop changes only the participants, their list and count, and the calls. */
  lemma {:induction false} DrainFrame(p: Page, q: seq<UserId>, s: Stream)
    ensures var r := Drain(p, q, s);
      r == p.(participants := r.participants, roster := r.roster, count := r.count,
              peers := r.peers, placed := r.placed)
  {
    if q != [] {
      DrainFrame(p, q[..|q| - 1], s);
    }
  }

  /** The stream-ready loop lists every queued identifier, appending list items in arrival order
      exactly for those that were not yet participants. */
  lemma {:induction false} DrainParticipants(p: Page, q: seq<UserId>, s: Stream)
    ensures var r := Drain(p, q, s);
      && (forall v :: v in r.participants <==> v in p.participants || v in q)
      && r.roster == p.roster + FirstNew(p.participants, q)
  {
    if q != [] {
      var q' := q[..|q| - 1];
      var u := q[|q| - 1];
      assert q == q' + [u];
      DrainParticipants(p, q', s);
      FirstNewMembers(p.participants, q');
    }
  }

  /** The stream-ready loop gives every queued identifier a `peers` entry and keeps the existing ones. */
  lemma {:induction false} DrainPeers(p: Page, q: seq<UserId>, s: Stream)
    ensures forall v :: v in Drain(p, q, s).peers <==> v in p.peers || v in q
    ensures forall v | v in p.peers :: Drain(p, q, s).peers[v] == p.peers[v]
  {
    if q != [] {
      var q' := q[..|q| - 1];
      assert q == q' + [q[|q| - 1]];
      DrainPeers(p, q', s);
    }
  }

  lemma CallsToSnoc(ids: seq<UserId>, u: UserId, s: Stream, base: nat)
    ensures CallsTo(ids + [u], s, base) == CallsTo(ids, s, base) + [Call(u, s, base + |ids|)]
  {
  }

  /** The stream-ready loop calls, in arrival order, exactly the queued identifiers that had no
      `peers` entry, each once. */
  lemma {:induction false} DrainPlaced(p: Page, q: seq<UserId>, s: Stream)
    ensures Drain(p, q, s).placed == p.placed + CallsTo(FirstNew(p.peers.Keys, q), s, |p.placed|)
  {
    if q != [] {
      var q' := q[..|q| - 1];
      var u := q[|q| - 1];
      DrainPlaced(p, q', s);
      var m := Drain(p, q', s);
      var fp := FirstNew(p.peers.Keys, q');
      assert u in m.peers <==> u in p.peers.Keys || u in fp by {
        DrainPeers(p, q', s);
        FirstNewMembers(p.peers.Keys, q');
      }
      assert Drain(p, q, s).placed == if u in m.peers then m.placed else m.placed + [Call(u, s, |m.placed|)];
      if u !in m.peers {
        assert FirstNew(p.peers.Keys, q) == fp + [u];
        CallsToSnoc(fp, u, s, |p.placed|);
      } else {
        assert FirstNew(p.peers.Keys, q) == fp;
      }
    }
  }

  /** Processing the queue `q` with the stream: every queued identifier ends up called and listed;
      calls go, in arrival order, exactly to the queued identifiers that had no `peers` entry,
      each once; list items are appended, in arrival order, exactly for the queued identifiers
      that were not yet participants; existing calls are kept and nothing else changes. */
  lemma DrainSpec(p: Page, q: seq<UserId>, s: Stream)
    requires Valid(p)
    ensures var r := Drain(p, q, s);
      && Valid(r)
      && (forall v :: v in r.peers <==> v in p.peers || v in q)
      && (forall v | v in p.peers :: r.peers[v] == p.peers[v])
      && (forall v :: v in r.participants <==> v in p.participants || v in q)
      && r.roster == p.roster + FirstNew(p.participants, q)
      && r.placed == p.placed + CallsTo(FirstNew(p.peers.Keys, q), s, |p.placed|)
      && r == p.(participants := r.participants, roster := r.roster, count := r.count,
                 peers := r.peers, placed := r.placed)
  {
    DrainValid(p, q, s);
    DrainFrame(p, q, s);
    DrainParticipants(p, q, s);
    DrainPeers(p, q, s);
    DrainPlaced(p, q, s);
  }

  /** When the stream becomes ready, every queued identifier is processed in arrival order, as `DrainSpec` says. */
  lemma StreamReadySpec(p: Page, s: Stream)
    requires Valid(p) && p.stream.None?
    ensures var r := StreamReady(p, s);
      && Valid(r)
      && r.stream == Some(s)
      && r.pending == p.pending
      && (forall v :: v in r.peers <==> v in p.peers || v in p.pending)
      && (forall v :: v in r.participants <==> v in p.participants || v in p.pending)
      && r.placed == p.placed + CallsTo(FirstNew(p.peers.Keys, p.pending), s, |p.placed|)
      && r.roster == p.roster + FirstNew(p.participants, p.pending)
  {
    DrainSpec(p.(stream := Some(s)), p.pending, s);
  }

  /** `user-connected` without the stream only queues the identifier; with it, the identifier is
      called (unless `peers` has it) and then listed. */
  lemma UserConnectedSpec(p: Page, u: UserId)
    requires Valid(p)
    ensures var r := UserConnected(p, u);
      && Valid(r)
      && (p.stream.None? ==> r == p.(pending := p.pending + [u]))
      && (p.stream.Some? ==> r.pending == p.pending && u in r.peers && u in r.participants
                               && r == AddParticipant(ConnectToNewUser(p, u, p.stream.value), u))
  {
    if p.stream.Some? {
      ConnectToNewUserSpec(p, u, p.stream.value);
      AddParticipantSpec(ConnectToNewUser(p, u, p.stream.value), u);
    }
  }

  /** Adding and calling touch different parts of the page, so their order does not matter. */
  lemma AddCommutesWithConnect(p: Page, u: UserId, v: UserId, s: Stream)
    ensures ConnectToNewUser(AddParticipant(p, u), v, s) == AddParticipant(ConnectToNewUser(p, v, s), u)
  {
  }

  /** With the stream ready, `room-users` treats every identifier other than the page's own
      exactly as the stream-ready loop treats a queued one. */
  lemma {:induction false} RoomUsersWithStream(p: Page, us: seq<UserId>, s: Stream)
    requires p.stream == Some(s)
    ensures RoomUsers(p, us) == Drain(p, Without(us, p.peerId), s)
  {
    if us != [] {
      var us' := us[..|us| - 1];
      var u := us[|us| - 1];
      RoomUsersWithStream(p, us', s);
      var m := RoomUsers(p, us');
      assert m.stream == Some(s) && m.peerId == p.peerId by { DrainKeeps(p, Without(us', p.peerId), s); }
      if u != p.peerId {
        AddCommutesWithConnect(m, u, u, s);
        var w := Without(us', p.peerId);
        assert Without(us, p.peerId) == w + [u];
        assert (w + [u])[..|w|] == w;
      }
    }
  }

  /** The stream-ready loop leaves the stream, the page's ids and the queue as they are. */
  lemma {:induction false} DrainKeeps(p: Page, q: seq<UserId>, s: Stream)
    ensures Drain(p, q, s).stream == p.stream && Drain(p, q, s).peerId == p.peerId
    ensures Drain(p, q, s).pending == p.pending
  {
    if q != [] {
      DrainKeeps(p, q[..|q| - 1], s);
    }
  }

  /** Without the stream, `room-users` changes only the participants, their list and count, and
      the queue, which grows by the identifiers other than the page's own, in order. */
  lemma {:induction false} RoomUsersQueue(p: Page, us: seq<UserId>)
    requires p.stream.None?
    ensures var r := RoomUsers(p, us);
      && r.pending == p.pending + Without(us, p.peerId)
      && r == p.(participants := r.participants, roster := r.roster, count := r.count, pending := r.pending)
  {
    if us != [] {
      RoomUsersQueue(p, us[..|us| - 1]);
    }
  }

  /** Without the stream, `room-users` keeps the page consistent. */
  lemma {:induction false} RoomUsersValid(p: Page, us: seq<UserId>)
    requires Valid(p) && p.stream.None?
    ensures Valid(RoomUsers(p, us))
  {
    if us != [] {
      var us' := us[..|us| - 1];
      RoomUsersValid(p, us');
      RoomUsersQueue(p, us');
      AddParticipantSpec(RoomUsers(p, us'), us[|us| - 1]);
    }
  }

  /** Without the stream, `room-users` lists every identifier other than the page's own at once,
      appending list items in arrival order exactly for those that were not yet participants. */
  lemma {:induction false} RoomUsersListed(p: Page, us: seq<UserId>)
    requires p.stream.None?
    ensures var r := RoomUsers(p, us);
      var xs := Without(us, p.peerId);
      && (forall v :: v in r.participants <==> v in p.participants || v in xs)
      && r.roster == p.roster + FirstNew(p.participants, xs)
  {
    if us != [] {
      var us' := us[..|us| - 1];
      var u := us[|us| - 1];
      RoomUsersListed(p, us');
      RoomUsersQueue(p, us');
      var m := RoomUsers(p, us');
      var xs' := Without(us', p.peerId);
      FirstNewMembers(p.participants, xs');
      if u != p.peerId {
        assert Without(us, p.peerId) == xs' + [u];
        var f := FirstNew(p.participants, xs');
        assert (xs' + [u])[..|xs'|] == xs';
        if u in m.participants {
          assert FirstNew(p.participants, xs' + [u]) == f;
        } else {
          assert FirstNew(p.participants, xs' + [u]) == f + [u];
        }
      }
    }
  }

  /** Without the stream, `room-users` lists every identifier other than the page's own at once
      and queues them, in order, calling nobody. */
  lemma RoomUsersWithoutStream(p: Page, us: seq<UserId>)
    requires Valid(p) && p.stream.None?
    ensures var r := RoomUsers(p, us);
      var xs := Without(us, p.peerId);
      && Valid(r)
      && (forall v :: v in r.participants <==> v in p.participants || v in xs)
      && r.roster == p.roster + FirstNew(p.participants, xs)
      && r.pending == p.pending + xs
      && r == p.(participants := r.participants, roster := r.roster, count := r.count, pending := r.pending)
  {
    RoomUsersQueue(p, us);
    RoomUsersValid(p, us);
    RoomUsersListed(p, us);
  }

  /** `room-users` in either case: the page's own id is never listed by it, every other
      identifier is listed; with the stream they are called, without it they are queued. */
  lemma RoomUsersSpec(p: Page, us: seq<UserId>)
    requires Valid(p)
    ensures var r := RoomUsers(p, us);
      && Valid(r)
      && (forall v :: v in r.participants <==> v in p.participants || (v in us && v != p.peerId))
      && (p.stream.None? ==> r.pending == p.pending + Without(us, p.peerId) && r.peers == p.peers && r.placed == p.placed)
      && (p.stream.Some? ==> r.pending == p.pending && (forall v :: v in r.peers <==> v in p.peers || (v in us && v != p.peerId)))
  {
    WithoutMembers(us, p.peerId);
    if p.stream.None? {
      RoomUsersWithoutStream(p, us);
    } else {
      RoomUsersWithStream(p, us, p.stream.value);
      DrainSpec(p, Without(us, p.peerId), p.stream.value);
      DrainKeeps(p, Without(us, p.peerId), p.stream.value);
    }
  }

  /** Hanging up keeps the page consistent: no other open call was placed to `u`. */
  lemma HangUpValid(p: Page, u: UserId)
    requires Valid(p)
    ensures Valid(HangUp(p, u))
  {
    if u in p.peers {
      var h := HangUp(p, u);
      forall k | 0 <= k < |h.placed| && h.placed[k] !in h.closed
        ensures h.placed[k].remote in h.peers && h.peers[h.placed[k].remote] == h.placed[k]
      {
        assert h.placed[k] != p.peers[u];
      }
    }
  }

  /** One more round of the stream-ready loop. */
  lemma DrainStep(p: Page, q: seq<UserId>, i: nat, s: Stream)
    requires i < |q|
    ensures Drain(p, q[..i + 1], s) == AddParticipant(ConnectToNewUser(Drain(p, q[..i], s), q[i], s), q[i])
  {
    assert q[..i + 1][..i] == q[..i];
  }

  /** One more round of the `room-users` loop. */
  lemma RoomUsersStep(p: Page, us: seq<UserId>, i: nat)
    requires i < |us|
    ensures RoomUsers(p, us[..i + 1]) == RoomUser(RoomUsers(p, us[..i]), us[i])
  {
    assert us[..i + 1][..i] == us[..i];
  }

  /** `user-disconnected` closes and forgets the call with `u` if there is one, and removes `u`
      from the participants and the videos; no other identifier's entries change, and for an
      identifier the page knows nothing of, nothing changes at all. */
  lemma UserDisconnectedSpec(p: Page, u: UserId)
    requires Valid(p)
    ensures var r := UserDisconnected(p, u);
      && Valid(r)
      && u !in r.peers && u !in r.participants && u !in r.videos
      && r.closed == (if u in p.peers then p.closed + [p.peers[u]] else p.closed)
      && (forall v | v != u :: (v in r.peers <==> v in p.peers) && (v in r.peers ==> r.peers[v] == p.peers[v]))
      && (forall v | v != u :: (v in r.videos <==> v in p.videos) && (v in r.videos ==> r.videos[v] == p.videos[v]))
      && r.participants == p.participants - {u}
      && (u !in p.peers && u !in p.participants && u !in p.videos ==> r == p)
      && r == p.(participants := r.participants, roster := r.roster, count := r.count,
                 peers := r.peers, closed := r.closed, videos := r.videos)
  {
    HangUpValid(p, u);
    var h := HangUp(p, u);
    RemoveParticipantSpec(h, u);
  }

  /** An inbound call is answered only once the stream is ready, and it leaves `peers` alone. */
  lemma IncomingCallSpec(p: Page, caller: UserId)
    requires Valid(p)
    ensures var r := IncomingCall(p, caller);
      && Valid(r)
      && r.peers == p.peers
      && r.answered == (if p.stream.Some? then p.answered + [caller] else p.answered)
  {
  }

  /** `chat-history` replaces whatever the pane showed with one line per message, in order,
      marked as the page's own exactly when its sender is the page's identifier. */
  lemma {:induction false} ChatHistorySpec(p: Page, ms: seq<ChatMessage>)
    ensures var r := ChatHistoryReceived(p, ms);
      && |r.chat| == |ms|
      && (forall i | 0 <= i < |ms| ::
            r.chat[i].sender == ms[i].sender && r.chat[i].text == ms[i].text && (r.chat[i].own <==> ms[i].sender == p.userId))
  {
    LinesAt(ms, p.userId);
  }

  lemma {:induction false} LinesAt(ms: seq<ChatMessage>, self: UserId)
    ensures |Lines(ms, self)| == |ms|
    ensures forall i | 0 <= i < |ms| :: Lines(ms, self)[i] == Line(ms[i], self)
  {
    if ms != [] {
      LinesAt(ms[..|ms| - 1], self);
    }
  }

  /** Everything that can happen to the page: server events, the media APIs' callbacks, and the peer opening. */
  datatype Input =
    | ConnectedIn(u: UserId)
    | UsersIn(users: seq<UserId>)
    | DisconnectedIn(u: UserId)
    | StreamIn(s: Stream)
    | CallIn(caller: UserId)
    | RemoteStreamIn(u: UserId, v: Video)
    | CallCloseIn(u: UserId)
    | OpenIn
    | ChatIn(m: ChatMessage)
    | HistoryIn(ms: seq<ChatMessage>)

  /** `getUserMedia` resolves at most once. */
  predicate Admissible(p: Page, e: Input)
  {
    e.StreamIn? ==> p.stream.None?
  }

  function Step(p: Page, e: Input): Page
    requires Admissible(p, e)
  {
    match e
    case ConnectedIn(u) => UserConnected(p, u)
    case UsersIn(users) => RoomUsers(p, users)
    case DisconnectedIn(u) => UserDisconnected(p, u)
    case StreamIn(s) => StreamReady(p, s)
    case CallIn(caller) => IncomingCall(p, caller)
    case RemoteStreamIn(u, v) => CallStream(p, u, v)
    case CallCloseIn(u) => CallClosed(p, u)
    case OpenIn => PeerOpen(p)
    case ChatIn(m) => ChatMessageReceived(p, m)
    case HistoryIn(ms) => ChatHistoryReceived(p, ms)
  }

  /** Each input of `es` is admissible in the state the previous ones leave. */
  predicate AdmissibleRun(p: Page, es: seq<Input>)
    decreases |es|
  {
    es == [] || (Admissible(p, es[0]) && AdmissibleRun(Step(p, es[0]), es[1..]))
  }

  function Run(p: Page, es: seq<Input>): Page
    requires AdmissibleRun(p, es)
    decreases |es|
  {
    if es == [] then p else Run(Step(p, es[0]), es[1..])
  }

  /** Every handler keeps the page consistent. */
  lemma StepKeepsValid(p: Page, e: Input)
    requires Valid(p) && Admissible(p, e)
    ensures Valid(Step(p, e))
  {
    match e
    case ConnectedIn(u) =>
      assert Valid(UserConnected(p, u)) by { UserConnectedSpec(p, u); }
    case UsersIn(users) =>
      assert Valid(RoomUsers(p, users)) by { RoomUsersSpec(p, users); }
    case DisconnectedIn(u) =>
      assert Valid(UserDisconnected(p, u)) by { UserDisconnectedSpec(p, u); }
    case StreamIn(s) =>
      DrainValid(p.(stream := Some(s)), p.pending, s);
    case OpenIn =>
      assert Valid(AddParticipant(p, p.peerId)) by { AddParticipantSpec(p, p.peerId); }
    case _ =>
  }

  /** So every run keeps the page consistent. */
  lemma {:induction false} RunKeepsValid(p: Page, es: seq<Input>)
    requires Valid(p) && AdmissibleRun(p, es)
    ensures Valid(Run(p, es))
    decreases |es|
  {
    if es != [] {
      StepKeepsValid(p, es[0]);
      RunKeepsValid(Step(p, es[0]), es[1..]);
    }
  }

  /** Whatever happens after the script starts, the displayed count is the number of
      participants, the list shows each of them exactly once, and no identifier has two open
      calls placed to it. */
  lemma PageConsistency(userId: UserId, peerId: UserId, es: seq<Input>)
    requires AdmissibleRun(Start(userId, peerId), es)
    ensures var p := Run(Start(userId, peerId), es);
      && p.count == |p.participants|
      && (forall u :: u in p.participants <==> u in p.roster)
      && NoDuplicates(p.roster)
      && (forall i, j | 0 <= i < |p.placed| && 0 <= j < |p.placed| ::
            p.placed[i] !in p.closed && p.placed[j] !in p.closed && p.placed[i].remote == p.placed[j].remote ==> i == j)
  {
    RunKeepsValid(Start(userId, peerId), es);
  }
}
