/** The real-time server: the registries it keeps in memory (user to socket,
    socket to user, group to typing users) and one handler per socket event.
    The database is an in-memory store of group and message documents keyed by
    id, and every event the server emits is appended to `log` together with its
    audience. Each handler runs on behalf of one connection, given by its socket
    id and its authenticated user id. */
module SocketServer {
  import opened Common
  import opened MessageModel
  import opened GroupModel

  /** Who receives an emission: one socket (`socket.emit`, `io.to(socketId)`),
      everyone in a group's room (`io.to(room)`), or everyone in the room but
      the emitting socket (`socket.to(room)`). */
  datatype Audience = ToSocket(socket: SocketId) | ToRoom(group: GroupId) | ToRoomExcept(group: GroupId, except: SocketId)

  datatype Event =
    | ErrorEvent(message: string)
    | JoinedGroup(groupId: GroupId)
    | UserJoinedGroup(groupId: GroupId, userId: UserId)
    | LeftGroup(groupId: GroupId)
    | NewMessage(messageId: MessageId)
    | UserTyping(groupId: GroupId, userId: UserId)
    | UserStoppedTyping(groupId: GroupId, userId: UserId)
    | MessageStatusUpdated(messageId: MessageId, status: StatusType, userId: UserId)
    | ReactionAdded(messageId: MessageId)
    | ReactionRemoved(messageId: MessageId)
    | PollVoted(messageId: MessageId)
    | MessageEdited(messageId: MessageId)
    | MessageDeleted(messageId: MessageId)
    | OnlineUsers(groupId: GroupId, users: seq<UserId>)

  datatype Emission = Emission(to: Audience, event: Event)

  function ErrorTo(sock: SocketId, message: string): Emission {
    Emission(ToSocket(sock), ErrorEvent(message))
  }

  /** The `forEach` that fills `status.sent` of a new message: every member
      but the sender, in member order. */
  method InitialSent(members: seq<UserId>, sender: UserId) returns (sent: seq<UserId>)
    ensures sent == Without(members, sender)
  {
    sent := [];
    for i := 0 to |members|
      invariant sent == Without(members[..i], sender)
    {
      assert members[..i + 1][..i] == members[..i];
      if members[i] != sender {
        sent := sent + [members[i]];
      }
    }
    assert members[..|members|] == members;
  }

  /** `members.filter(m => activeUsers.has(m))` */
  function OnlineMembers(members: seq<UserId>, active: map<UserId, SocketId>): (r: seq<UserId>)
    ensures |r| <= |members|
  {
    if members == [] then []
    else
      var last := members[|members| - 1];
      OnlineMembers(members[..|members| - 1], active) + (if last in active then [last] else [])
  }

  /** The online list holds exactly the connected members, each as often as
      in the member list, and nobody else. */
  lemma {:induction false} OnlineMembersExact(members: seq<UserId>, active: map<UserId, SocketId>, v: UserId)
    ensures v in OnlineMembers(members, active) <==> v in members && v in active
    ensures multiset(OnlineMembers(members, active))[v] == if v in active then multiset(members)[v] else 0
  {
    if members != [] {
      OnlineMembersExact(members[..|members| - 1], active, v);
      assert members == members[..|members| - 1] + [members[|members| - 1]];
    }
  }

  /** The online list keeps member order: it distributes over concatenation. */
  lemma {:induction false} OnlineMembersAppend(a: seq<UserId>, b: seq<UserId>, active: map<UserId, SocketId>)
    ensures OnlineMembers(a + b, active) == OnlineMembers(a, active) + OnlineMembers(b, active)
  {
    if b != [] {
      var b' := b[..|b| - 1];
      assert (a + b)[..|a + b| - 1] == a + b';
      assert (a + b)[|a + b| - 1] == b[|b| - 1];
      OnlineMembersAppend(a, b', active);
    } else {
      assert a + b == a;
    }
  }

  /** The typing map after `typing-start`: the group's set, created empty if
      missing, gains the user. */
  function StartTyping(typing: map<GroupId, set<UserId>>, g: GroupId, u: UserId): (r: map<GroupId, set<UserId>>)
    ensures r.Keys == typing.Keys + {g}
    ensures u in r[g]
    ensures g in typing ==> r[g] == typing[g] + {u}
    ensures g !in typing ==> r[g] == {u}
    ensures forall h :: h in typing && h != g ==> r[h] == typing[h]
  {
    typing[g := (if g in typing then typing[g] else {}) + {u}]
  }

  /** The typing map after `stopTyping`: the user leaves the group's set when
      the group has one; a group without a set stays without one. */
  function StopTyping(typing: map<GroupId, set<UserId>>, g: GroupId, u: UserId): (r: map<GroupId, set<UserId>>)
    ensures r.Keys == typing.Keys
    ensures g in typing ==> r[g] == typing[g] - {u}
    ensures forall h :: h in typing && h != g ==> r[h] == typing[h]
  {
    if g in typing then typing[g := typing[g] - {u}] else typing
  }

  /** `stopTyping` notifies the room whenever the group has a set, whether or
      not the user was in it. */
  function StopTypingNotice(typing: map<GroupId, set<UserId>>, g: GroupId, u: UserId, sock: SocketId): (r: seq<Emission>)
    ensures |r| <= 1
    ensures r != [] <==> g in typing
  {
    if g in typing then [Emission(ToRoomExcept(g, sock), UserStoppedTyping(g, u))] else []
  }

  /** Repeating `typing-start` leaves the map as the first call left it. */
  lemma StartTypingIdempotent(typing: map<GroupId, set<UserId>>, g: GroupId, u: UserId)
    ensures StartTyping(StartTyping(typing, g, u), g, u) == StartTyping(typing, g, u)
  {
    var once := StartTyping(typing, g, u);
    assert once[g] + {u} == once[g];
  }

  /** Stopping after starting takes the user out of the group's set again and
      leaves the set as it was apart from the user. */
  lemma StopUndoesStart(typing: map<GroupId, set<UserId>>, g: GroupId, u: UserId)
    requires g in typing && u !in typing[g]
    ensures StopTyping(StartTyping(typing, g, u), g, u) == typing
  {
    var r := StopTyping(StartTyping(typing, g, u), g, u);
    assert r[g] == typing[g];
    assert forall h :: h in r ==> r[h] == typing[h];
  }

  /** The notices of the first `n` rounds of the `disconnect` loop over the
      typing map, in its insertion order: one `user-stopped-typing` for each
      group whose set held the user. */
  function DisconnectNotices(order: seq<GroupId>, n: nat, typing: map<GroupId, set<UserId>>, u: UserId, sock: SocketId): (r: seq<Emission>)
    requires n <= |order|
    ensures |r| <= n
  {
    if n == 0 then []
    else
      var g := order[n - 1];
      DisconnectNotices(order, n - 1, typing, u, sock)
        + (if g in typing && u in typing[g] then [Emission(ToRoomExcept(g, sock), UserStoppedTyping(g, u))] else [])
  }

  /** A group is announced on disconnect exactly when its set held the user,
      and only stop-typing notices for this user are emitted. */
  lemma {:induction false} DisconnectNoticesExact(order: seq<GroupId>, n: nat, typing: map<GroupId, set<UserId>>,
                                                  u: UserId, sock: SocketId, g: GroupId)
    requires n <= |order|
    ensures Emission(ToRoomExcept(g, sock), UserStoppedTyping(g, u)) in DisconnectNotices(order, n, typing, u, sock)
      <==> g in order[..n] && g in typing && u in typing[g]
    ensures forall e :: e in DisconnectNotices(order, n, typing, u, sock) ==>
      e.event.UserStoppedTyping? && e.event.userId == u && e.to == ToRoomExcept(e.event.groupId, sock)
  {
    if n != 0 {
      DisconnectNoticesExact(order, n - 1, typing, u, sock, g);
      assert order[..n] == order[..n - 1] + [order[n - 1]];
    }
  }

  /** The `typingUsers.forEach` loop of `disconnect`, over the groups in
      iteration order: each set holding the user loses it and a notice is
      appended. */
  method ClearTyping(order: seq<GroupId>, typing: map<GroupId, set<UserId>>, u: UserId, sock: SocketId,
                     log: seq<Emission>)
    returns (typing': map<GroupId, set<UserId>>, log': seq<Emission>)
    requires NoDuplicates(order) && forall g :: g in order <==> g in typing
    ensures typing'.Keys == typing.Keys
    ensures forall g :: g in typing' ==> typing'[g] == typing[g] - {u}
    ensures log' == log + DisconnectNotices(order, |order|, typing, u, sock)
  {
    typing', log' := typing, log;
    for i := 0 to |order|
      invariant typing'.Keys == typing.Keys
      invariant forall k :: 0 <= k < |order| ==>
        typing'[order[k]] == if k < i then typing[order[k]] - {u} else typing[order[k]]
      invariant log' == log + DisconnectNotices(order, i, typing, u, sock)
    {
      var g := order[i];
      assert forall k :: 0 <= k < |order| && k != i ==> order[k] != g;
      if u in typing'[g] {
        typing' := typing'[g := typing'[g] - {u}];
        log' := log' + [Emission(ToRoomExcept(g, sock), UserStoppedTyping(g, u))];
      }
    }
    forall g | g in typing' ensures typing'[g] == typing[g] - {u} {
      var k :| 0 <= k < |order| && order[k] == g;
    }
  }

  /** The notice a status update sends to the sender's socket, when the
      sender is connected. */
  function StatusNotice(messages: map<MessageId, MessageDoc>, active: map<UserId, SocketId>,
                        mid: MessageId, t: StatusType, u: UserId): (r: seq<Emission>)
    ensures |r| <= 1
    ensures r != [] <==> mid in messages && messages[mid].senderId in active
  {
    if mid in messages && messages[mid].senderId in active
    then [Emission(ToSocket(active[messages[mid].senderId]), MessageStatusUpdated(mid, t, u))]
    else []
  }

  /** The notices of the first `n` rounds of the `mark-group-seen` loop, one
      per document whose sender is connected, in document order. */
  function SeenNotices(docs: seq<MessageDoc>, n: nat, active: map<UserId, SocketId>, u: UserId): seq<Emission>
    requires n <= |docs|
  {
    if n == 0 then []
    else
      SeenNotices(docs, n - 1, active, u) + SeenNotice(docs[n - 1], active, u)
  }

  /** The documents the query returns for the selected ids. */
  function DocsOf(store: map<MessageId, MessageDoc>, ids: seq<MessageId>): (r: seq<MessageDoc>)
    requires forall k :: 0 <= k < |ids| ==> ids[k] in store
    ensures |r| == |ids| && forall k :: 0 <= k < |ids| ==> r[k] == store[ids[k]]
  {
    seq(|ids|, k requires 0 <= k < |ids| => store[ids[k]])
  }

  /** The notice a sender gets when one of its messages is seen, if connected. */
  function SeenNotice(m: MessageDoc, active: map<UserId, SocketId>, u: UserId): (r: seq<Emission>)
    ensures r != [] <==> m.senderId in active
  {
    if m.senderId in active then [Emission(ToSocket(active[m.senderId]), MessageStatusUpdated(m.id, Seen, u))] else []
  }

  /** One round of the `mark-group-seen` loop: the document is marked seen and
      the notice for its sender, if any, is returned. */
  method MarkOneSeen(m: MessageDoc, u: UserId, active: map<UserId, SocketId>)
    returns (notice: seq<Emission>)
    modifies m`status
    ensures m.status == StatusAfter(old(m.status), Seen, u)
    ensures notice == SeenNotice(m, active, u)
  {
    assert ParseStatusType("seen") == Some(Seen);
    var outcome := m.UpdateStatus("seen", u);
    notice := SeenNotice(m, active, u);
  }

  /** The loop of `mark-group-seen` over the documents the query returned:
      each is marked seen by the caller and its connected sender told. */
  method MarkEachSeen(docs: seq<MessageDoc>, ghost before: seq<DeliveryStatus>, u: UserId,
                      active: map<UserId, SocketId>)
    returns (notices: seq<Emission>)
    requires NoDuplicates(docs)
    requires |before| == |docs| && forall k :: 0 <= k < |docs| ==> docs[k].status == before[k]
    modifies docs`status
    ensures forall k :: 0 <= k < |docs| ==> docs[k].status == StatusAfter(before[k], Seen, u)
    ensures notices == SeenNotices(docs, |docs|, active, u)
  {
    notices := [];
    for i := 0 to |docs|
      invariant forall k :: 0 <= k < |docs| ==>
        docs[k].status == if k < i then StatusAfter(before[k], Seen, u) else before[k]
      invariant notices == SeenNotices(docs, i, active, u)
    {
      assert forall k :: 0 <= k < |docs| && k != i ==> docs[k] != docs[i];
      var notice := MarkOneSeen(docs[i], u, active);
      assert SeenNotices(docs, i + 1, active, u) == notices + notice;
      notices := notices + notice;
    }
  }

  class ChatServer {
    var activeUsers: map<UserId, SocketId>
    var userSockets: map<SocketId, UserId>
    var typingUsers: map<GroupId, set<UserId>>
    /** The order in which groups were first entered into `typingUsers`, which
        is the order a JavaScript `Map` iterates them in. */
    var typingOrder: seq<GroupId>
    var groups: map<GroupId, Group>
    var messages: map<MessageId, MessageDoc>
    /** The store's natural order of message documents. */
    var messageOrder: seq<MessageId>
    var log: seq<Emission>

    ghost predicate Valid()
      reads this
    {
      && (forall id :: id in messages ==> messages[id].id == id)
      && NoDuplicates(messageOrder)
      && (forall id :: id in messageOrder <==> id in messages)
      && NoDuplicates(typingOrder)
      && (forall g :: g in typingOrder <==> g in typingUsers)
    }

    constructor (groups: map<GroupId, Group>, messages: map<MessageId, MessageDoc>, messageOrder: seq<MessageId>)
      requires forall id :: id in messages ==> messages[id].id == id
      requires NoDuplicates(messageOrder) && (forall id :: id in messageOrder <==> id in messages)
      ensures Valid()
      ensures activeUsers == map[] && userSockets == map[] && typingUsers == map[] && log == []
      ensures this.groups == groups && this.messages == messages && this.messageOrder == messageOrder
    {
      activeUsers, userSockets, typingUsers, typingOrder := map[], map[], map[], [];
      this.groups, this.messages, this.messageOrder := groups, messages, messageOrder;
      log := [];
    }

    /** A connection registers both directions of the mapping. A second
        connection of the same user overwrites `activeUsers` and leaves the
        older socket's `userSockets` entry in place. */
    method Connect(sock: SocketId, u: UserId)
      modifies this`activeUsers, this`userSockets
      ensures activeUsers == old(activeUsers)[u := sock]
      ensures userSockets == old(userSockets)[sock := u]
    {
      activeUsers := activeUsers[u := sock];
      userSockets := userSockets[sock := u];
    }

    /** `join-group`: acknowledged to the caller and announced to the rest of
        the room when the group exists and has the caller as a member. */
    method JoinGroup(sock: SocketId, u: UserId, g: GroupId)
      modifies this`log
      ensures g in groups && u in groups[g].members ==>
        log == old(log) + [Emission(ToSocket(sock), JoinedGroup(g)), Emission(ToRoomExcept(g, sock), UserJoinedGroup(g, u))]
      ensures !(g in groups && u in groups[g].members) ==>
        log == old(log) + [ErrorTo(sock, "Group not found or you are not a member")]
    {
      if g in groups && u in groups[g].members {
        log := log + [Emission(ToSocket(sock), JoinedGroup(g)), Emission(ToRoomExcept(g, sock), UserJoinedGroup(g, u))];
      } else {
        log := log + [ErrorTo(sock, "Group not found or you are not a member")];
      }
    }

    /** `leave-group` is acknowledged without any check. */
    method LeaveGroup(sock: SocketId, g: GroupId)
      modifies this`log
      ensures log == old(log) + [Emission(ToSocket(sock), LeftGroup(g))]
    {
      log := log + [Emission(ToSocket(sock), LeftGroup(g))];
    }

    /** The `stopTyping` helper. */
    method StopTypingFor(sock: SocketId, u: UserId, g: GroupId)
      requires Valid()
      modifies this`typingUsers, this`log
      ensures Valid()
      ensures typingUsers == StopTyping(old(typingUsers), g, u)
      ensures log == old(log) + StopTypingNotice(old(typingUsers), g, u, sock)
    {
      if g in typingUsers {
        typingUsers := typingUsers[g := typingUsers[g] - {u}];
        log := log + [Emission(ToRoomExcept(g, sock), UserStoppedTyping(g, u))];
      }
    }

    /** `typing-start`: the group's set is created when missing (which records
        the group in the iteration order) and gains the user; the rest of the
        room is told. */
    method TypingStart(sock: SocketId, u: UserId, g: GroupId)
      requires Valid()
      modifies this`typingUsers, this`typingOrder, this`log
      ensures Valid()
      ensures typingUsers == StartTyping(old(typingUsers), g, u)
      ensures typingOrder == if g in old(typingUsers) then old(typingOrder) else old(typingOrder) + [g]
      ensures log == old(log) + [Emission(ToRoomExcept(g, sock), UserTyping(g, u))]
    {
      if g !in typingUsers {
        typingUsers := typingUsers[g := {}];
        typingOrder := typingOrder + [g];
      }
      typingUsers := typingUsers[g := typingUsers[g] + {u}];
      log := log + [Emission(ToRoomExcept(g, sock), UserTyping(g, u))];
    }

    /** `typing-stop` */
    method TypingStop(sock: SocketId, u: UserId, g: GroupId)
      requires Valid()
      modifies this`typingUsers, this`log
      ensures Valid()
      ensures typingUsers == StopTyping(old(typingUsers), g, u)
      ensures log == old(log) + StopTypingNotice(old(typingUsers), g, u, sock)
    {
      StopTypingFor(sock, u, g);
    }

    /** Stores a new message document for `send-message`, with every other
        member of the group in `status.sent`, and appends it to the group. */
    method StoreMessage(g: GroupId, u: UserId, kind: MessageType, content: string, mediaUrl: string,
                        poll: PollData, repliedTo: Option<MessageId>, newId: MessageId, now: Timestamp)
      requires Valid()
      requires newId !in messages && g in groups
      modifies this`messages, this`messageOrder, {groups[g]}`messages
      ensures Valid()
      ensures newId in messages && fresh(messages[newId])
      ensures messages == old(messages)[newId := messages[newId]]
      ensures messageOrder == old(messageOrder) + [newId]
      ensures groups[g].messages == old(groups[g].messages) + [newId]
      ensures var m := messages[newId];
        && m.groupId == g && m.senderId == u && m.kind == kind
        && m.content == content && m.mediaUrl == mediaUrl && m.poll == poll && m.repliedTo == repliedTo
        && m.status == DeliveryStatus(Without(groups[g].members, u), [], [])
        && m.reactions == [] && !m.deleted && m.createdAt == now
    {
      var group := groups[g];
      var sent := InitialSent(group.members, u);
      var m := new MessageDoc(newId, g, u, kind, content, mediaUrl, poll, repliedTo,
                              DeliveryStatus(sent, [], []), now);
      messages := messages[newId := m];
      messageOrder := messageOrder + [newId];
      group.messages := group.messages + [newId];
    }

    /** `send-message`. A caller who is not a member of an existing group gets
        an error and nothing is created. A type outside the enum fails the
        save, reported as a generic error. Otherwise the message is stored,
        announced to the whole room, and the caller's typing indicator is
        stopped. */
    method SendMessage(sock: SocketId, u: UserId, g: GroupId, typeName: string, content: string,
                       mediaUrl: string, poll: Option<PollData>, repliedTo: Option<MessageId>,
                       newId: MessageId, now: Timestamp)
      requires Valid()
      requires newId !in messages
      modifies this`messages, this`messageOrder, this`typingUsers, this`log
      modifies (if g in groups then {groups[g]} else {})`messages
      ensures Valid()
      ensures !(g in groups && u in groups[g].members) ==>
        && log == old(log) + [ErrorTo(sock, "You are not a member of this group")]
        && messages == old(messages) && messageOrder == old(messageOrder) && typingUsers == old(typingUsers)
        && (g in groups ==> groups[g].messages == old(groups[g].messages))
      ensures g in groups && u in groups[g].members && RequestedType(typeName).None? ==>
        && log == old(log) + [ErrorTo(sock, "Error sending message")]
        && messages == old(messages) && messageOrder == old(messageOrder) && typingUsers == old(typingUsers)
        && groups[g].messages == old(groups[g].messages)
      ensures g in groups && u in groups[g].members && RequestedType(typeName).Some? ==>
        && newId in messages && fresh(messages[newId])
        && messages == old(messages)[newId := messages[newId]]
        && messageOrder == old(messageOrder) + [newId]
        && groups[g].messages == old(groups[g].messages) + [newId]
        && var m := messages[newId];
        && m.groupId == g && m.senderId == u && m.kind == RequestedType(typeName).value
        && m.content == content && m.mediaUrl == mediaUrl && m.poll == StoredPoll(poll) && m.repliedTo == repliedTo
        && m.status == DeliveryStatus(Without(groups[g].members, u), [], [])
        && m.reactions == [] && !m.deleted && m.createdAt == now
        && typingUsers == StopTyping(old(typingUsers), g, u)
        && log == old(log) + [Emission(ToRoom(g), NewMessage(newId))] + StopTypingNotice(old(typingUsers), g, u, sock)
    {
      if !(g in groups && u in groups[g].members) {
        log := log + [ErrorTo(sock, "You are not a member of this group")];
        return;
      }
      var kind := RequestedType(typeName);
      if kind.None? {
        log := log + [ErrorTo(sock, "Error sending message")];
        return;
      }
      StoreMessage(g, u, kind.value, content, mediaUrl, StoredPoll(poll), repliedTo, newId, now);
      log := log + [Emission(ToRoom(g), NewMessage(newId))];
      StopTypingFor(sock, u, g);
    }

    /** `message-delivered`: an unknown id is ignored; otherwise the status is
        updated and the sender, when connected, is told. */
    method MessageDelivered(u: UserId, mid: MessageId)
      modifies this`log, (if mid in messages then {messages[mid]} else {})`status
      ensures mid !in messages ==> log == old(log)
      ensures mid in messages ==>
        && messages[mid].status == StatusAfter(old(messages[mid].status), Delivered, u)
        && log == old(log) + StatusNotice(messages, activeUsers, mid, Delivered, u)
    {
      if mid in messages {
        var outcome := messages[mid].UpdateStatus("delivered", u);
        log := log + StatusNotice(messages, activeUsers, mid, Delivered, u);
      }
    }

    /** `message-seen`: as `message-delivered`, with status `seen`. */
    method MessageSeen(u: UserId, mid: MessageId)
      modifies this`log, (if mid in messages then {messages[mid]} else {})`status
      ensures mid !in messages ==> log == old(log)
      ensures mid in messages ==>
        && messages[mid].status == StatusAfter(old(messages[mid].status), Seen, u)
        && log == old(log) + StatusNotice(messages, activeUsers, mid, Seen, u)
    {
      if mid in messages {
        var outcome := messages[mid].UpdateStatus("seen", u);
        log := log + StatusNotice(messages, activeUsers, mid, Seen, u);
      }
    }

    /** The query of `mark-group-seen`: messages of the group, sent by someone
        else, not deleted, and not yet seen by the caller. */
    predicate IsSeenTarget(id: MessageId, g: GroupId, u: UserId)
      reads this, messages.Values
    {
      id in messages && messages[id].groupId == g && messages[id].senderId != u
      && !messages[id].deleted && u !in messages[id].status.seen
    }

    /** The query's result, in store order. */
    function SeenTargets(ids: seq<MessageId>, g: GroupId, u: UserId): (r: seq<MessageId>)
      reads this, messages.Values
      ensures forall i :: 0 <= i < |r| ==> r[i] in ids
    {
      if ids == [] then []
      else
        var id := ids[|ids| - 1];
        SeenTargets(ids[..|ids| - 1], g, u) + (if IsSeenTarget(id, g, u) then [id] else [])
    }

    /** The query selects every message that qualifies, and only those. */
    lemma {:induction false} SeenTargetsExact(ids: seq<MessageId>, g: GroupId, u: UserId, id: MessageId)
      ensures id in SeenTargets(ids, g, u) <==> id in ids && IsSeenTarget(id, g, u)
    {
      if ids != [] {
        SeenTargetsExact(ids[..|ids| - 1], g, u, id);
        assert ids == ids[..|ids| - 1] + [ids[|ids| - 1]];
      }
    }

    lemma {:induction false} SeenTargetsNoDuplicates(ids: seq<MessageId>, g: GroupId, u: UserId)
      requires NoDuplicates(ids)
      ensures NoDuplicates(SeenTargets(ids, g, u))
    {
      if ids != [] {
        var init := ids[..|ids| - 1];
        assert NoDuplicates(init);
        SeenTargetsNoDuplicates(init, g, u);
        SeenTargetsExact(init, g, u, ids[|ids| - 1]);
      }
    }

    /** `mark-group-seen`: silently does nothing for a missing group or a
        non-member; otherwise marks every selected message seen, one at a time,
        notifying each connected sender. */
    method MarkGroupSeen(u: UserId, g: GroupId)
      requires Valid()
      modifies this`log, messages.Values`status
      ensures Valid()
      ensures !(g in groups && u in groups[g].members) ==> log == old(log) && unchanged(messages.Values)
      ensures g in groups && u in groups[g].members ==>
        var targets := old(SeenTargets(messageOrder, g, u));
        && (forall k :: 0 <= k < |targets| ==> targets[k] in messages)
        && log == old(log) + SeenNotices(DocsOf(messages, targets), |targets|, activeUsers, u)
        && forall id :: id in messages ==>
             messages[id].status == if id in targets then StatusAfter(old(messages[id].status), Seen, u)
                                    else old(messages[id].status)
    {
      if !(g in groups && u in groups[g].members) {
        return;
      }
      var targets := SeenTargets(messageOrder, g, u);
      SeenTargetsNoDuplicates(messageOrder, g, u);
      MarkTargetsSeen(targets, u);
    }

    /** Runs the `mark-group-seen` loop over the documents of the selected ids. */
    method MarkTargetsSeen(targets: seq<MessageId>, u: UserId)
      requires forall id :: id in messages ==> messages[id].id == id
      requires NoDuplicates(targets) && forall k :: 0 <= k < |targets| ==> targets[k] in messages
      modifies this`log, messages.Values`status
      ensures log == old(log) + SeenNotices(DocsOf(messages, targets), |targets|, activeUsers, u)
      ensures forall id :: id in messages ==>
        messages[id].status == if id in targets then StatusAfter(old(messages[id].status), Seen, u)
                               else old(messages[id].status)
    {
      var docs := DocsOf(messages, targets);
      assert NoDuplicates(docs) by {
        forall i, j | 0 <= i < j < |docs| ensures docs[i] != docs[j] {
          assert docs[i].id == targets[i] && docs[j].id == targets[j];
        }
      }
      ghost var before := seq(|docs|, k requires 0 <= k < |docs| reads docs => docs[k].status);
      var notices := MarkEachSeen(docs, before, u, activeUsers);
      log := log + notices;
      forall id | id in messages
        ensures messages[id].status == if id in targets then StatusAfter(old(messages[id].status), Seen, u)
                                       else old(messages[id].status)
      {
        if id in targets {
          var k :| 0 <= k < |targets| && targets[k] == id;
          assert docs[k] == messages[id];
        } else {
          assert messages[id] !in docs;
        }
      }
    }

    /** `add-reaction`: an unknown id is ignored; otherwise the ledger is
        updated and the whole room is told. */
    method AddReaction(u: UserId, mid: MessageId, emoji: string)
      modifies this`log, (if mid in messages then {messages[mid]} else {})`reactions
      ensures mid !in messages ==> log == old(log)
      ensures mid in messages ==>
        && messages[mid].reactions == WithReaction(old(messages[mid].reactions), emoji, u)
        && log == old(log) + [Emission(ToRoom(messages[mid].groupId), ReactionAdded(mid))]
    {
      if mid in messages {
        var m := messages[mid];
        m.AddReaction(emoji, u);
        log := log + [Emission(ToRoom(m.groupId), ReactionAdded(mid))];
      }
    }

    /** `remove-reaction`: as `add-reaction`, removing the exact pair. */
    method RemoveReaction(u: UserId, mid: MessageId, emoji: string)
      modifies this`log, (if mid in messages then {messages[mid]} else {})`reactions
      ensures mid !in messages ==> log == old(log)
      ensures mid in messages ==>
        && messages[mid].reactions == WithoutReaction(old(messages[mid].reactions), emoji, u)
        && log == old(log) + [Emission(ToRoom(messages[mid].groupId), ReactionRemoved(mid))]
    {
      if mid in messages {
        var m := messages[mid];
        m.RemoveReaction(emoji, u);
        log := log + [Emission(ToRoom(m.groupId), ReactionRemoved(mid))];
      }
    }

    /** `vote-poll`: refused for an unknown id or a message whose type is not
        poll; otherwise the vote is cast and the room told. */
    method VotePoll(sock: SocketId, u: UserId, mid: MessageId, optionIndex: int)
      modifies this`log, (if mid in messages then {messages[mid]} else {})`poll
      ensures (mid !in messages || messages[mid].kind != Poll) ==>
        log == old(log) + [ErrorTo(sock, "Message is not a poll")]
      ensures mid in messages && messages[mid].kind == Poll ==>
        && messages[mid].poll == old(messages[mid].poll).(options :=
             CastVote(old(messages[mid].poll).options, optionIndex, u))
        && log == old(log) + [Emission(ToRoom(messages[mid].groupId), PollVoted(mid))]
    {
      if mid !in messages || messages[mid].kind != Poll {
        log := log + [ErrorTo(sock, "Message is not a poll")];
        return;
      }
      var m := messages[mid];
      var _ := m.VotePoll(optionIndex, u);
      log := log + [Emission(ToRoom(m.groupId), PollVoted(mid))];
    }

    /** `edit-message`: refused for an unknown id, for someone else's message
        and for polls and media; otherwise the content is replaced, the edit
        time recorded and the room told. */
    method EditMessage(sock: SocketId, u: UserId, mid: MessageId, content: string, now: Timestamp)
      modifies this`log
      modifies (if mid in messages then {messages[mid]} else {})`content
      modifies (if mid in messages then {messages[mid]} else {})`updatedAt
      ensures mid !in messages ==> log == old(log) + [ErrorTo(sock, "Message not found")]
      ensures mid in messages && messages[mid].senderId != u ==>
        log == old(log) + [ErrorTo(sock, "You can only edit your own messages")] && unchanged(messages[mid])
      ensures mid in messages && messages[mid].senderId == u && !Editable(messages[mid].kind) ==>
        log == old(log) + [ErrorTo(sock, "Cannot edit this type of message")] && unchanged(messages[mid])
      ensures mid in messages && messages[mid].senderId == u && Editable(messages[mid].kind) ==>
        && messages[mid].content == content && messages[mid].updatedAt == now
        && log == old(log) + [Emission(ToRoom(messages[mid].groupId), MessageEdited(mid))]
    {
      if mid !in messages {
        log := log + [ErrorTo(sock, "Message not found")];
        return;
      }
      var m := messages[mid];
      if m.senderId != u {
        log := log + [ErrorTo(sock, "You can only edit your own messages")];
        return;
      }
      if !Editable(m.kind) {
        log := log + [ErrorTo(sock, "Cannot edit this type of message")];
        return;
      }
      m.content := content;
      m.updatedAt := now;
      log := log + [Emission(ToRoom(m.groupId), MessageEdited(mid))];
    }

    /** `delete-message`: refused for an unknown id; a message whose group is
        gone makes the admin lookup throw, reported as a generic error; allowed
        to the sender or an admin of the group, in which case the message is
        only flagged deleted, never removed from the store. */
    method DeleteMessage(sock: SocketId, u: UserId, mid: MessageId, now: Timestamp)
      modifies this`log
      modifies (if mid in messages then {messages[mid]} else {})`deleted
      modifies (if mid in messages then {messages[mid]} else {})`deletedAt
      ensures mid !in messages ==> log == old(log) + [ErrorTo(sock, "Message not found")]
      ensures mid in messages && messages[mid].groupId !in groups ==>
        log == old(log) + [ErrorTo(sock, "Error deleting message")] && unchanged(messages[mid])
      ensures mid in messages && messages[mid].groupId in groups
              && messages[mid].senderId != u && u !in groups[messages[mid].groupId].admins ==>
        log == old(log) + [ErrorTo(sock, "You can only delete your own messages or be an admin")]
        && unchanged(messages[mid])
      ensures mid in messages && messages[mid].groupId in groups
              && (messages[mid].senderId == u || u in groups[messages[mid].groupId].admins) ==>
        && messages[mid].deleted && messages[mid].deletedAt == Some(now)
        && log == old(log) + [Emission(ToRoom(messages[mid].groupId), MessageDeleted(mid))]
    {
      if mid !in messages {
        log := log + [ErrorTo(sock, "Message not found")];
        return;
      }
      var m := messages[mid];
      if m.groupId !in groups {
        log := log + [ErrorTo(sock, "Error deleting message")];
        return;
      }
      var isSender := m.senderId == u;
      var isAdmin := u in groups[m.groupId].admins;
      if !isSender && !isAdmin {
        log := log + [ErrorTo(sock, "You can only delete your own messages or be an admin")];
        return;
      }
      m.deleted := true;
      m.deletedAt := Some(now);
      log := log + [Emission(ToRoom(m.groupId), MessageDeleted(mid))];
    }

    /** `get-online-users`: refused to non-members; otherwise the caller gets
        the members that have a registered connection, in member order. */
    method GetOnlineUsers(sock: SocketId, u: UserId, g: GroupId)
      modifies this`log
      ensures !(g in groups && u in groups[g].members) ==>
        log == old(log) + [ErrorTo(sock, "You are not a member of this group")]
      ensures g in groups && u in groups[g].members ==>
        log == old(log) + [Emission(ToSocket(sock), OnlineUsers(g, OnlineMembers(groups[g].members, activeUsers)))]
    {
      if !(g in groups && u in groups[g].members) {
        log := log + [ErrorTo(sock, "You are not a member of this group")];
        return;
      }
      log := log + [Emission(ToSocket(sock), OnlineUsers(g, OnlineMembers(groups[g].members, activeUsers)))];
    }

    /** `disconnect`: both registry entries are deleted (the user's entry even
        when it now names a newer socket), and the user leaves every typing
        set; each group whose set held the user is told, in the map's order. */
    method Disconnect(sock: SocketId, u: UserId)
      requires Valid()
      modifies this`activeUsers, this`userSockets, this`typingUsers, this`log
      ensures Valid()
      ensures activeUsers == old(activeUsers) - {u}
      ensures userSockets == old(userSockets) - {sock}
      ensures typingUsers.Keys == old(typingUsers).Keys
      ensures forall g :: g in typingUsers ==> typingUsers[g] == old(typingUsers)[g] - {u}
      ensures forall g :: g in typingUsers ==> u !in typingUsers[g]
      ensures log == old(log) + DisconnectNotices(typingOrder, |typingOrder|, old(typingUsers), u, sock)
    {
      activeUsers := activeUsers - {u};
      userSockets := userSockets - {sock};
      typingUsers, log := ClearTyping(typingOrder, typingUsers, u, sock, log);
    }
  }
}
